/** Publishing a video: the row and its outbox message commit together, pollers relay the
    message to the timeline and fan-out queues and then delete it, and consumers write the
    global timeline. The protocol is a step system over an explicit state, so that pollers,
    consumers, failures, crashes and redeliveries interleave freely. */
module Outbox {
  import opened Decimal
  import opened Zset
  import opened BoundedZset
  import opened Runs
  import opened Wrappers
  import Fanout

  const POLL_LIMIT: nat := 100

  /** What a video was published as. */
  datatype Post = Post(authorID: nat, createTime: int)

  /** A pending row of the outbox table. */
  datatype Row = Row(rowID: nat, videoID: nat, authorID: nat, createTime: int)

  /** The body of a message in the timeline queue; some bodies do not decode. */
  datatype Body = TimelineEvent(videoID: nat, createTime: int) | Undecodable

  datatype Stage = AtTimeline | AtFanout | AtDelete

  /** A poller either waits or works through the batch it read; rest[0] is its current row. */
  datatype Poller = Idle | Sending(rest: seq<Row>, stage: Stage)

  datatype Handling = ToAdd | ToTrim | ToAck

  /** A consumer waits or works on a delivery, which stays in the queue until it is acked. */
  datatype Consumer = Waiting | Handling(event: Body, at: Handling)

  datatype State = State(
    published: map<nat, Post>,          // every video ever committed
    rows: set<Row>,                     // the outbox table
    nextRow: nat,                       // its auto-increment key
    queue: multiset<Body>,              // the durable timeline queue
    timelineSent: set<Body>,            // the timeline messages ever enqueued
    fanoutSent: set<Fanout.FanoutEvent>, // the fan-out messages ever enqueued
    history: seq<Command>,              // the commands the timeline has executed
    timeline: ZSet,
    hasFanout: bool,                    // is there a FanoutMQ
    pollers: seq<Poller>,
    consumers: seq<Consumer>)

  datatype Action =
    | Publish(videoID: nat, authorID: nat, createTime: int)
    | Fetch(p: nat, batch: seq<Row>)
    | SendTimeline(p: nat, timelineSend: Reply)
    | SendFanout(p: nat, fanoutSend: Reply)
    | DeleteRow(p: nat, deleted: bool)
    | PollerCrash(p: nat)
    | Garbage                           // a body that does not decode arrives from outside
    | Deliver(c: nat, event: Body)
    | AddToTimeline(c: nat, zadd: Reply)
    | TrimTimeline(c: nat, trimmed: bool)
    | AckDelivery(c: nat, acked: bool)
    | ConsumerCrash(c: nat)
    | RebuildAdd(videoID: nat)          // one ZADD of a timeline rebuilt from the videos table

  function Init(pollers: nat, consumers: nat, hasFanout: bool): State
  {
    State(map[], {}, 0, multiset{}, {}, {}, [], map[], hasFanout, seq(pollers, _ => Idle), seq(consumers, _ => Waiting))
  }

  /** ORDER BY create_time ASC LIMIT 100. */
  ghost predicate OldestBatch(rows: set<Row>, batch: seq<Row>)
  {
    && (forall r :: r in batch ==> r in rows)
    && (forall i, j :: 0 <= i < j < |batch| ==> batch[i] != batch[j] && batch[i].createTime <= batch[j].createTime)
    && |batch| == (if |rows| <= POLL_LIMIT then |rows| else POLL_LIMIT)
    && (forall r, i :: r in rows && r !in batch && 0 <= i < |batch| ==> batch[i].createTime <= r.createTime)
  }

  predicate Working(s: State, p: nat, stage: Stage)
  {
    p < |s.pollers| && s.pollers[p].Sending? && s.pollers[p].stage == stage && s.pollers[p].rest != []
  }

  predicate Busy(s: State, c: nat, at: Handling)
  {
    c < |s.consumers| && s.consumers[c].Handling? && s.consumers[c].at == at
  }

  ghost predicate Enabled(s: State, a: Action)
  {
    match a
    case Publish(v, _, _) => v !in s.published
    case Fetch(p, batch) => p < |s.pollers| && s.pollers[p].Idle? && OldestBatch(s.rows, batch)
    case SendTimeline(p, _) => Working(s, p, AtTimeline)
    case SendFanout(p, _) => Working(s, p, AtFanout)
    case DeleteRow(p, _) => Working(s, p, AtDelete)
    case PollerCrash(p) => p < |s.pollers|
    case Garbage => true
    case Deliver(c, e) => c < |s.consumers| && s.consumers[c].Waiting? && e in s.queue
    case AddToTimeline(c, zadd) => Busy(s, c, ToAdd) && (zadd.Applied() ==> s.consumers[c].event.TimelineEvent?)
    case TrimTimeline(c, _) => Busy(s, c, ToTrim)
    case AckDelivery(c, _) => Busy(s, c, ToAck)
    case ConsumerCrash(c) => c < |s.consumers|
    case RebuildAdd(v) => v in s.published
  }

  /** On to the next row of the batch. */
  function NextRow(rest: seq<Row>): Poller
    requires rest != []
  {
    if |rest| == 1 then Idle else Sending(rest[1..], AtTimeline)
  }

  function WithPoller(s: State, p: nat, poller: Poller): State
    requires p < |s.pollers|
  {
    s.(pollers := s.pollers[p := poller])
  }

  function WithConsumer(s: State, c: nat, consumer: Consumer): State
    requires c < |s.consumers|
  {
    s.(consumers := s.consumers[c := consumer])
  }

  function Executed(s: State, c: Command): State
  {
    s.(history := s.history + [c], timeline := Exec(s.timeline, TIMELINE_CAP, c))
  }

  function EventOf(r: Row): Body { TimelineEvent(r.videoID, r.createTime) }

  function MessageOf(r: Row): Fanout.FanoutEvent { Fanout.FanoutEvent(r.videoID, r.authorID, r.createTime) }

  /** Only one ZADD per event: member the decimal id, score the creation time. */
  function AddOf(e: Body): Command
    requires e.TimelineEvent?
  {
    Add(FormatUint(e.videoID), e.createTime)
  }

  function Enqueued(s: State, r: Row): State
  {
    s.(queue := s.queue + multiset{EventOf(r)}, timelineSent := s.timelineSent + {EventOf(r)})
  }

  function Removed(rows: set<Row>, rowID: nat): set<Row> { set r | r in rows && r.rowID != rowID }

  function Next(s: State, a: Action): (t: State)
    requires Enabled(s, a)
    ensures |t.pollers| == |s.pollers| && |t.consumers| == |s.consumers|
  {
    match a
    case Publish(v, author, t) =>
      s.(published := s.published[v := Post(author, t)], rows := s.rows + {Row(s.nextRow, v, author, t)}, nextRow := s.nextRow + 1)
    case Fetch(p, batch) =>
      if batch == [] then s else WithPoller(s, p, Sending(batch, AtTimeline))
    case SendTimeline(p, send) =>
      var rest := s.pollers[p].rest;
      var next := if !send.Heard? then NextRow(rest) else Sending(rest, if s.hasFanout then AtFanout else AtDelete);
      WithPoller(if send.Applied() then Enqueued(s, rest[0]) else s, p, next)
    case SendFanout(p, send) =>
      var rest := s.pollers[p].rest;
      var s1 := if send.Applied() then s.(fanoutSent := s.fanoutSent + {MessageOf(rest[0])}) else s;
      WithPoller(s1, p, if send.Heard? then Sending(rest, AtDelete) else NextRow(rest))
    case DeleteRow(p, deleted) =>
      var rest := s.pollers[p].rest;
      var s1 := if deleted then s.(rows := Removed(s.rows, rest[0].rowID)) else s;
      WithPoller(s1, p, NextRow(rest))
    case PollerCrash(p) => WithPoller(s, p, Idle)
    case Garbage => s.(queue := s.queue + multiset{Undecodable})
    case Deliver(c, e) => WithConsumer(s, c, Handling(e, ToAdd))
    case AddToTimeline(c, zadd) =>
      var e := s.consumers[c].event;
      WithConsumer(if zadd.Applied() then Executed(s, AddOf(e)) else s, c, if zadd.Heard? then Handling(e, ToTrim) else Waiting)
    case TrimTimeline(c, trimmed) =>
      WithConsumer(if trimmed then Executed(s, Trim) else s, c, Handling(s.consumers[c].event, ToAck))
    case AckDelivery(c, acked) =>
      var s1 := if acked then s.(queue := s.queue - multiset{s.consumers[c].event}) else s;
      WithConsumer(s1, c, Waiting)
    case ConsumerCrash(c) => WithConsumer(s, c, Waiting)
    case RebuildAdd(v) => Executed(s, AddOf(TimelineEvent(v, s.published[v].createTime)))
  }

  // ---------- the invariant ----------

  predicate Known(published: map<nat, Post>, v: nat, t: int) { v in published && published[v].createTime == t }

  /** The row says what the video was published as. */
  predicate Faithful(published: map<nat, Post>, r: Row)
  {
    r.videoID in published && published[r.videoID] == Post(r.authorID, r.createTime)
  }

  /** A timeline write is genuine: a published video under its own member and creation time. */
  ghost predicate Genuine(published: map<nat, Post>, c: Command)
  {
    c.Add? ==> exists v :: Known(published, v, c.score) && c.member == FormatUint(v)
  }

  ghost predicate TimelineOk(s: State)
  {
    && s.timeline == ExecAll(map[], TIMELINE_CAP, s.history)
    && (forall c :: c in s.history ==> Genuine(s.published, c))
    && (forall e :: e in s.queue && e.TimelineEvent? ==> Known(s.published, e.videoID, e.createTime))
  }

  /** Rows describe published videos, under keys already handed out, each key once. */
  ghost predicate RowsOk(s: State)
  {
    && (forall r :: r in s.rows ==> Faithful(s.published, r) && r.rowID < s.nextRow)
    && (forall r, q :: r in s.rows && q in s.rows && r.rowID == q.rowID ==> r == q)
  }

  /** A poller's copy may be stale, but a row that still carries its key is the same row. */
  ghost predicate CopyOk(s: State, r: Row)
  {
    && Faithful(s.published, r) && r.rowID < s.nextRow
    && (forall q :: q in s.rows && q.rowID == r.rowID ==> q == r)
  }

  ghost predicate PollerOk(s: State, poller: Poller)
  {
    poller.Sending? ==>
      && poller.rest != []
      && (forall r :: r in poller.rest ==> CopyOk(s, r))
      && (poller.stage != AtTimeline ==> EventOf(poller.rest[0]) in s.timelineSent)
      && (poller.stage == AtDelete && s.hasFanout ==> MessageOf(poller.rest[0]) in s.fanoutSent)
  }

  ghost predicate ConsumerOk(s: State, consumer: Consumer)
  {
    consumer.Handling? ==>
      match consumer.event
      case TimelineEvent(v, t) => Known(s.published, v, t) && (consumer.at != ToAdd ==> AddOf(consumer.event) in s.history)
      case Undecodable => consumer.at == ToAdd
  }

  ghost predicate WorkersOk(s: State)
  {
    && (forall p :: 0 <= p < |s.pollers| ==> PollerOk(s, s.pollers[p]))
    && (forall c :: 0 <= c < |s.consumers| ==> ConsumerOk(s, s.consumers[c]))
  }

  /** A row is there that carries the author and time the video was published with. */
  ghost predicate Pending(s: State, v: nat)
    requires v in s.published
  {
    exists r :: r in s.rows && r.videoID == v && s.published[v] == Post(r.authorID, r.createTime)
  }

  /** So were the messages enqueued. */
  predicate Relayed(s: State, v: nat)
    requires v in s.published
  {
    && TimelineEvent(v, s.published[v].createTime) in s.timelineSent
    && (s.hasFanout ==> Fanout.FanoutEvent(v, s.published[v].authorID, s.published[v].createTime) in s.fanoutSent)
  }

  /** Nothing published is lost on the way out of the outbox. */
  ghost predicate NothingLost(s: State)
  {
    forall v :: v in s.published ==> Pending(s, v) || Relayed(s, v)
  }

  /** The event is still queued or its write has reached the timeline. */
  predicate Arrived(s: State, e: Body)
  {
    e.TimelineEvent? && Known(s.published, e.videoID, e.createTime) && (e in s.queue || AddOf(e) in s.history)
  }

  /** Nothing relayed is lost on the way into the timeline. */
  ghost predicate SentArrives(s: State) { forall e :: e in s.timelineSent ==> Arrived(s, e) }

  /** Every fan-out message carries what its video was published as, and follows the timeline
      message. */
  ghost predicate MessagesOk(s: State)
  {
    forall m :: m in s.fanoutSent ==>
      && m.videoID in s.published && s.published[m.videoID] == Post(m.authorID, m.createTime)
      && TimelineEvent(m.videoID, m.createTime) in s.timelineSent
  }

  ghost predicate Inv(s: State)
  {
    TimelineOk(s) && RowsOk(s) && WorkersOk(s) && NothingLost(s) && SentArrives(s) && MessagesOk(s)
  }

  lemma InitInv(pollers: nat, consumers: nat, hasFanout: bool)
    ensures Inv(Init(pollers, consumers, hasFanout))
  {
  }

  // ---------- what every step leaves in place ----------

  /** What one step, and so any run, never takes back. */
  ghost predicate Later(s: State, t: State)
  {
    && (forall v :: v in s.published ==> v in t.published && t.published[v] == s.published[v])
    && s.nextRow <= t.nextRow
    && (forall q :: q in t.rows ==> q in s.rows || q.rowID >= s.nextRow)
    && s.timelineSent <= t.timelineSent && s.fanoutSent <= t.fanoutSent
    && s.hasFanout == t.hasFanout
    && (forall c :: c in s.history ==> c in t.history)
  }

  lemma NextIsLater(s: State, a: Action)
    requires Inv(s) && Enabled(s, a)
    ensures Later(s, Next(s, a))
  {
    HistoryGrows(s, a);
  }

  lemma HistoryGrows(s: State, a: Action)
    requires Enabled(s, a)
    ensures forall c :: c in s.history ==> c in Next(s, a).history
  {
  }

  lemma OtherConsumersStay(s: State, a: Action, c: nat)
    requires Enabled(s, a) && c < |s.consumers|
    requires !((a.Deliver? || a.AddToTimeline? || a.TrimTimeline? || a.AckDelivery? || a.ConsumerCrash?) && a.c == c)
    ensures Next(s, a).consumers[c] == s.consumers[c]
  {
  }

  lemma PollerStable(s: State, t: State, poller: Poller)
    requires Later(s, t) && PollerOk(s, poller)
    ensures PollerOk(t, poller)
  {
    if poller.Sending? {
      forall r | r in poller.rest ensures CopyOk(t, r) { assert CopyOk(s, r); }
    }
  }

  lemma ConsumerStable(s: State, t: State, consumer: Consumer)
    requires Later(s, t) && ConsumerOk(s, consumer)
    ensures ConsumerOk(t, consumer)
  {
  }

  lemma GenuineStable(s: State, t: State, c: Command)
    requires Later(s, t) && Genuine(s.published, c)
    ensures Genuine(t.published, c)
  {
    if c.Add? {
      var v :| Known(s.published, v, c.score) && c.member == FormatUint(v);
      assert Known(t.published, v, c.score);
    }
  }

  // ---------- each part of the invariant, over every step ----------

  lemma NextRowOk(t: State, rest: seq<Row>)
    requires rest != [] && PollerOk(t, Sending(rest, AtTimeline))
    ensures PollerOk(t, NextRow(rest))
  {
    forall r | r in rest[1..] ensures CopyOk(t, r) { assert r in rest; }
  }

  lemma RestOk(s: State, t: State, p: nat)
    requires WorkersOk(s) && Later(s, t) && p < |s.pollers| && s.pollers[p].Sending?
    ensures PollerOk(t, Sending(s.pollers[p].rest, AtTimeline))
    ensures PollerOk(t, NextRow(s.pollers[p].rest))
  {
    assert PollerOk(s, s.pollers[p]);
    PollerStable(s, t, Sending(s.pollers[p].rest, AtTimeline));
    NextRowOk(t, s.pollers[p].rest);
  }

  /** The poller that acted is in order. */
  lemma SenderOk(s: State, a: Action)
    requires Inv(s) && Enabled(s, a) && Later(s, Next(s, a)) && a.SendTimeline?
    ensures PollerOk(Next(s, a), Next(s, a).pollers[a.p])
  {
    RestOk(s, Next(s, a), a.p);
  }

  lemma FanoutSenderOk(s: State, a: Action)
    requires Inv(s) && Enabled(s, a) && Later(s, Next(s, a)) && a.SendFanout?
    ensures PollerOk(Next(s, a), Next(s, a).pollers[a.p])
  {
    RestOk(s, Next(s, a), a.p);
    assert PollerOk(s, s.pollers[a.p]);
  }

  lemma DeleterOk(s: State, a: Action)
    requires Inv(s) && Enabled(s, a) && Later(s, Next(s, a)) && a.DeleteRow?
    ensures PollerOk(Next(s, a), Next(s, a).pollers[a.p])
  {
    RestOk(s, Next(s, a), a.p);
  }

  lemma FetchedOk(s: State, batch: seq<Row>)
    requires RowsOk(s) && OldestBatch(s.rows, batch) && batch != []
    ensures PollerOk(s, Sending(batch, AtTimeline))
  {
  }

  lemma StepKeepsPollers(s: State, a: Action, p: nat)
    requires Inv(s) && Enabled(s, a) && p < |s.pollers|
    ensures PollerOk(Next(s, a), Next(s, a).pollers[p])
  {
    NextIsLater(s, a);
    if a.Fetch? && a.p == p {
      FetchedPollerOk(s, a);
    } else if a.SendTimeline? && a.p == p {
      SenderOk(s, a);
    } else if a.SendFanout? && a.p == p {
      FanoutSenderOk(s, a);
    } else if a.DeleteRow? && a.p == p {
      DeleterOk(s, a);
    } else if !(a.PollerCrash? && a.p == p) {
      assert PollerOk(s, s.pollers[p]);
      PollerStable(s, Next(s, a), s.pollers[p]);
      assert Next(s, a).pollers[p] == s.pollers[p];
    }
  }

  lemma FetchedPollerOk(s: State, a: Action)
    requires Inv(s) && Enabled(s, a) && Later(s, Next(s, a)) && a.Fetch?
    ensures PollerOk(Next(s, a), Next(s, a).pollers[a.p])
  {
    if a.batch != [] {
      FetchedOk(s, a.batch);
      PollerStable(s, Next(s, a), Sending(a.batch, AtTimeline));
    }
  }

  lemma ActingConsumerOk(s: State, a: Action)
    requires Inv(s) && Enabled(s, a) && Later(s, Next(s, a)) && (a.Deliver? || a.AddToTimeline? || a.TrimTimeline?)
    ensures ConsumerOk(Next(s, a), Next(s, a).consumers[a.c])
  {
    assert ConsumerOk(s, s.consumers[a.c]);
  }

  lemma StepKeepsConsumers(s: State, a: Action, c: nat)
    requires Inv(s) && Enabled(s, a) && c < |s.consumers|
    ensures ConsumerOk(Next(s, a), Next(s, a).consumers[c])
  {
    NextIsLater(s, a);
    if (a.Deliver? || a.AddToTimeline? || a.TrimTimeline?) && a.c == c {
      ActingConsumerOk(s, a);
    } else if !((a.AckDelivery? || a.ConsumerCrash?) && a.c == c) {
      OtherConsumersStay(s, a, c);
      assert ConsumerOk(s, s.consumers[c]);
      ConsumerStable(s, Next(s, a), s.consumers[c]);
    }
  }

  lemma StepKeepsRows(s: State, a: Action)
    requires Inv(s) && Enabled(s, a)
    ensures RowsOk(Next(s, a))
  {
  }

  lemma ExecutedKeepsTimeline(s: State, c: Command)
    requires TimelineOk(s) && Genuine(s.published, c)
    ensures TimelineOk(Executed(s, c))
  {
    ExecAllAppend(map[], TIMELINE_CAP, s.history, c);
  }

  lemma AddKeepsTimeline(s: State, e: Body)
    requires TimelineOk(s) && e.TimelineEvent? && Known(s.published, e.videoID, e.createTime)
    ensures TimelineOk(Executed(s, AddOf(e)))
  {
    ExecutedKeepsTimeline(s, AddOf(e));
  }

  lemma PublishKeepsTimeline(s: State, a: Action)
    requires Inv(s) && Enabled(s, a) && a.Publish?
    ensures TimelineOk(Next(s, a))
  {
    NextIsLater(s, a);
    forall c | c in s.history ensures Genuine(Next(s, a).published, c) { GenuineStable(s, Next(s, a), c); }
  }

  lemma SendKeepsTimeline(s: State, a: Action)
    requires Inv(s) && Enabled(s, a) && a.SendTimeline?
    ensures TimelineOk(Next(s, a))
  {
    assert PollerOk(s, s.pollers[a.p]);
    assert CopyOk(s, s.pollers[a.p].rest[0]);
  }

  lemma ConsumerKeepsTimeline(s: State, a: Action)
    requires Inv(s) && Enabled(s, a) && (a.AddToTimeline? || a.TrimTimeline?)
    ensures TimelineOk(Next(s, a))
  {
    if a.TrimTimeline? {
      ExecutedKeepsTimeline(s, Trim);
    } else if a.zadd.Applied() {
      assert ConsumerOk(s, s.consumers[a.c]);
      AddKeepsTimeline(s, s.consumers[a.c].event);
    }
  }

  predicate WritesTimeline(a: Action)
  {
    a.Publish? || a.SendTimeline? || a.AddToTimeline? || a.TrimTimeline? || a.RebuildAdd?
  }

  /** The other steps only move workers, take something away or queue what does not decode. */
  lemma TimelineUntouched(s: State, a: Action)
    requires Enabled(s, a) && !WritesTimeline(a)
    ensures Next(s, a).history == s.history && Next(s, a).timeline == s.timeline
    ensures Next(s, a).published == s.published
  {
    match a
    case Fetch(_, _) =>
    case SendFanout(_, _) =>
    case DeleteRow(_, _) =>
    case PollerCrash(_) =>
    case Garbage =>
    case Deliver(_, _) =>
    case AckDelivery(_, _) =>
    case ConsumerCrash(_) =>
  }

  lemma NoEventQueued(s: State, a: Action, e: Body)
    requires Enabled(s, a) && !a.SendTimeline? && e in Next(s, a).queue && e.TimelineEvent?
    ensures e in s.queue
  {
  }

  lemma StillOk(s: State, t: State)
    requires TimelineOk(s) && t.history == s.history && t.timeline == s.timeline
    requires t.published == s.published && forall e :: e in t.queue && e.TimelineEvent? ==> e in s.queue
    ensures TimelineOk(t)
  {
  }

  lemma StepKeepsTimeline(s: State, a: Action)
    requires Inv(s) && Enabled(s, a)
    ensures TimelineOk(Next(s, a))
  {
    match a
    case Publish(_, _, _) => PublishKeepsTimeline(s, a);
    case SendTimeline(_, _) => SendKeepsTimeline(s, a);
    case AddToTimeline(_, _) => ConsumerKeepsTimeline(s, a);
    case TrimTimeline(_, _) => ConsumerKeepsTimeline(s, a);
    case RebuildAdd(v) => AddKeepsTimeline(s, TimelineEvent(v, s.published[v].createTime));
    case _ =>
      TimelineUntouched(s, a);
      forall e | e in Next(s, a).queue && e.TimelineEvent? ensures e in s.queue { NoEventQueued(s, a, e); }
      StillOk(s, Next(s, a));
  }

  lemma StepLosesNothing(s: State, a: Action, v: nat)
    requires Inv(s) && Enabled(s, a) && v in Next(s, a).published
    ensures Pending(Next(s, a), v) || Relayed(Next(s, a), v)
  {
    var t := Next(s, a);
    NextIsLater(s, a);
    if a.Publish? && v == a.videoID {
      assert Row(s.nextRow, v, a.authorID, a.createTime) in t.rows;
    } else if !Relayed(s, v) {
      var r :| r in s.rows && r.videoID == v && s.published[v] == Post(r.authorID, r.createTime);
      if a.DeleteRow? {
        assert PollerOk(s, s.pollers[a.p]);
        assert CopyOk(s, s.pollers[a.p].rest[0]);
      }
      assert r in t.rows;
    }
  }

  lemma StepLetsArrive(s: State, a: Action, e: Body)
    requires Inv(s) && Enabled(s, a) && e in Next(s, a).timelineSent
    ensures Arrived(Next(s, a), e)
  {
    if e in s.timelineSent {
      ArrivedStays(s, a, e);
    } else {
      SentIsQueued(s, a, e);
    }
  }

  lemma ArrivedStays(s: State, a: Action, e: Body)
    requires Inv(s) && Enabled(s, a) && e in s.timelineSent
    ensures Arrived(Next(s, a), e)
  {
    NextIsLater(s, a);
    assert Arrived(s, e);
    if a.AckDelivery? { assert ConsumerOk(s, s.consumers[a.c]); }
  }

  lemma SentIsQueued(s: State, a: Action, e: Body)
    requires Inv(s) && Enabled(s, a) && e in Next(s, a).timelineSent && e !in s.timelineSent
    ensures Arrived(Next(s, a), e)
  {
    assert a.SendTimeline?;
    assert PollerOk(s, s.pollers[a.p]);
    assert CopyOk(s, s.pollers[a.p].rest[0]);
    assert e in Next(s, a).queue;
  }

  lemma StepKeepsMessages(s: State, a: Action)
    requires Inv(s) && Enabled(s, a)
    ensures MessagesOk(Next(s, a))
  {
    NextIsLater(s, a);
    if a.SendFanout? {
      assert PollerOk(s, s.pollers[a.p]);
      assert CopyOk(s, s.pollers[a.p].rest[0]);
    }
  }

  /** Every step keeps the invariant. */
  lemma NextKeepsInv(s: State, a: Action)
    requires Inv(s) && Enabled(s, a)
    ensures Inv(Next(s, a))
  {
    var t := Next(s, a);
    StepKeepsTimeline(s, a);
    StepKeepsRows(s, a);
    forall p | 0 <= p < |t.pollers| ensures PollerOk(t, t.pollers[p]) { StepKeepsPollers(s, a, p); }
    forall c | 0 <= c < |t.consumers| ensures ConsumerOk(t, t.consumers[c]) { StepKeepsConsumers(s, a, c); }
    forall v | v in t.published ensures Pending(t, v) || Relayed(t, v) { StepLosesNothing(s, a, v); }
    forall e | e in t.timelineSent ensures Arrived(t, e) { StepLetsArrive(s, a, e); }
    StepKeepsMessages(s, a);
  }

  // ---------- runs ----------

  ghost predicate Steps(s: State, t: State) { exists a :: Enabled(s, a) && Next(s, a) == t }

  ghost predicate Reaches(s: State, t: State) { Leads(s, Steps, t) }

  lemma ReachesSelf(s: State)
    ensures Reaches(s, s)
  {
    LeadsNowhere(s, Steps);
  }

  lemma ReachesStep(s: State, t: State, a: Action)
    requires Reaches(s, t) && Enabled(t, a)
    ensures Reaches(s, Next(t, a))
  {
    assert Steps(t, Next(t, a));
    LeadsOn(s, Steps, t, Next(t, a));
  }

  lemma StepsKeepInv(s: State, t: State)
    requires Inv(s) && Steps(s, t)
    ensures Inv(t)
  {
    var a :| Enabled(s, a) && Next(s, a) == t;
    NextKeepsInv(s, a);
  }

  ghost predicate Reachable(s: State)
  {
    exists pollers, consumers, hasFanout :: Reaches(Init(pollers, consumers, hasFanout), s)
  }

  lemma ReachableInv(s: State)
    requires Reachable(s)
    ensures Inv(s)
  {
    var pollers, consumers, hasFanout :| Reaches(Init(pollers, consumers, hasFanout), s);
    InitInv(pollers, consumers, hasFanout);
    var run :| IsRun(run, Steps) && run[0] == Init(pollers, consumers, hasFanout) && run[|run| - 1] == s;
    forall u, v | Inv(u) && Steps(u, v) ensures Inv(v) { StepsKeepInv(u, v); }
    Invariant(run, Steps, Inv, |run| - 1);
  }

  /** No publish event is lost: in every reachable state each video ever committed has a
      pending outbox row, or has had its timeline message enqueued, and its fan-out message
      too when there is a fan-out queue; row and messages carry the author and time it was
      published with. */
  lemma NoPublishEventIsLost(s: State, v: nat)
    requires Reachable(s) && v in s.published
    ensures var Post(author, t) := s.published[v];
            || (exists id :: Row(id, v, author, t) in s.rows)
            || (TimelineEvent(v, t) in s.timelineSent && (s.hasFanout ==> Fanout.FanoutEvent(v, author, t) in s.fanoutSent))
  {
    ReachableInv(s);
    if !Relayed(s, v) {
      var r :| r in s.rows && r.videoID == v && s.published[v] == Post(r.authorID, r.createTime);
      assert Row(r.rowID, v, r.authorID, r.createTime) in s.rows;
    }
  }

  /** Nor is anything else sent; and no video is pushed to followers before it is on its way to
      the timeline. */
  lemma MessagesAreGenuine(s: State, m: Fanout.FanoutEvent)
    requires Reachable(s) && m in s.fanoutSent
    ensures m.videoID in s.published && s.published[m.videoID] == Post(m.authorID, m.createTime)
    ensures TimelineEvent(m.videoID, m.createTime) in s.timelineSent
  {
    ReachableInv(s);
  }

  /** So the messages of a reachable state agree on the time of each video, which is all that
      the inboxes need for their trims to go unnoticed, whoever carries the messages out. */
  lemma FanoutsAgree(s: State, log: seq<Fanout.Step>)
    requires Reachable(s) && forall step :: step in log && Fanout.Carries(step) ==> step.message in s.fanoutSent
    ensures Fanout.OneTimePerVideo(log)
  {
    forall a, b | a in log && b in log && Fanout.SameVideo(a, b) ensures a.message.createTime == b.message.createTime {
      MessagesAreGenuine(s, a.message);
      MessagesAreGenuine(s, b.message);
    }
  }

  /** Reading an inbox in a reachable state of the whole system. */
  lemma InboxReadsAreUntrimmed(s: State, log: seq<Fanout.Step>, f: nat, n: nat)
    requires Reachable(s) && forall step :: step in log && Fanout.Carries(step) ==> step.message in s.fanoutSent
    requires Fanout.Legal(log) && 1 <= n <= 500
    ensures ZRevRange(Fanout.InboxAfter(log, f), 0, n - 1) == ZRevRange(Untrimmed(Fanout.InboxCommands(log, f)), 0, n - 1)
  {
    FanoutsAgree(s, log);
    Fanout.TrimmingIsUnobservable(log, f, n);
  }

  // ---------- bodies that do not decode ----------

  /** No step takes such a body out of the queue: its consumer always sends it back. */
  lemma StepKeepsGarbage(s: State, a: Action)
    requires Inv(s) && Enabled(s, a)
    ensures s.queue[Undecodable] <= Next(s, a).queue[Undecodable]
  {
    if a.AckDelivery? { assert ConsumerOk(s, s.consumers[a.c]); }
  }

  lemma InvAlong(run: seq<State>, i: nat)
    requires IsRun(run, Steps) && Reachable(run[0]) && i < |run|
    ensures Inv(run[i])
  {
    ReachableInv(run[0]);
    forall u, v | Inv(u) && Steps(u, v) ensures Inv(v) { StepsKeepInv(u, v); }
    Invariant(run, Steps, Inv, i);
  }

  lemma StepsKeepGarbage(s: State, t: State)
    requires Inv(s) && Steps(s, t)
    ensures s.queue[Undecodable] <= t.queue[Undecodable]
  {
    var a :| Enabled(s, a) && Next(s, a) == t;
    StepKeepsGarbage(s, a);
  }

  lemma RunTakesSteps(run: seq<State>, i: nat)
    requires IsRun(run, Steps) && i + 1 < |run|
    ensures Steps(run[i], run[i + 1])
  {
  }

  lemma {:induction false} Climbs(counts: seq<nat>, i: nat, j: nat)
    requires i <= j < |counts| && forall k :: 0 <= k < |counts| - 1 ==> counts[k] <= counts[k + 1]
    ensures counts[i] <= counts[j]
  {
    if i < j { Climbs(counts, i, j - 1); }
  }

  lemma GarbageStays(run: seq<State>, i: nat, j: nat)
    requires IsRun(run, Steps) && Reachable(run[0]) && i <= j < |run|
    ensures run[i].queue[Undecodable] <= run[j].queue[Undecodable]
  {
    var counts := GarbageCounts(run);
    forall k | 0 <= k < |counts| - 1 ensures counts[k] <= counts[k + 1] { GarbageStep(run, k); }
    Climbs(counts, i, j);
  }

  function GarbageCounts(run: seq<State>): (counts: seq<nat>)
    ensures |counts| == |run| && forall k :: 0 <= k < |run| ==> counts[k] == run[k].queue[Undecodable]
  {
    if run == [] then [] else GarbageCounts(run[..|run| - 1]) + [run[|run| - 1].queue[Undecodable]]
  }

  lemma GarbageStep(run: seq<State>, k: nat)
    requires IsRun(run, Steps) && Reachable(run[0]) && k + 1 < |run|
    ensures run[k].queue[Undecodable] <= run[k + 1].queue[Undecodable]
  {
    InvAlong(run, k);
    RunTakesSteps(run, k);
    StepsKeepGarbage(run[k], run[k + 1]);
  }

  /** So it is redelivered for ever: once queued it is queued at every later point of every
      run, any waiting consumer can get it, and no consumer comes to acknowledge it. */
  lemma UndecodableIsNeverSettled(run: seq<State>, i: nat, j: nat, c: nat)
    requires IsRun(run, Steps) && Reachable(run[0]) && i <= j < |run| && Undecodable in run[i].queue
    ensures Undecodable in run[j].queue
    ensures c < |run[j].consumers| && run[j].consumers[c].Waiting? ==> Enabled(run[j], Deliver(c, Undecodable))
    ensures Busy(run[j], c, ToAck) ==> run[j].consumers[c].event != Undecodable
  {
    GarbageStays(run, i, j);
    InvAlong(run, j);
    if c < |run[j].consumers| { assert ConsumerOk(run[j], run[j].consumers[c]); }
  }
}
