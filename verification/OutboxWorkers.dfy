/** The two worker loops of the pipeline, one pass each: a poller relaying a batch of outbox
    rows and a consumer handling one delivery. Both only take steps of the protocol. */
module OutboxWorkers {
  import opened Collections
  import opened Decimal
  import opened Zset
  import opened BoundedZset
  import opened Outbox
  import opened Wrappers

  /** How the three calls for one row go. */
  datatype Outcome = Outcome(timeline: Reply, fanout: Reply, deleted: bool) {
    predicate Relays(hasFanout: bool) { timeline.Heard? && (hasFanout ==> fanout.Heard?) && deleted }
  }

  /** The rows of the batch whose calls all succeeded. */
  function RelayedRows(batch: seq<Row>, outcomes: seq<Outcome>, hasFanout: bool): set<Row>
    requires |outcomes| >= |batch|
  {
    set i | 0 <= i < |batch| && outcomes[i].Relays(hasFanout) :: batch[i]
  }

  lemma RelayedRowsStep(batch: seq<Row>, outcomes: seq<Outcome>, hasFanout: bool, i: nat)
    requires i < |batch| <= |outcomes|
    ensures RelayedRows(batch[..i + 1], outcomes, hasFanout) ==
              RelayedRows(batch[..i], outcomes, hasFanout) + if outcomes[i].Relays(hasFanout) then {batch[i]} else {}
  {
    var before, after := batch[..i], batch[..i + 1];
    forall r | r in RelayedRows(after, outcomes, hasFanout)
      ensures r in RelayedRows(before, outcomes, hasFanout) || (outcomes[i].Relays(hasFanout) && r == batch[i])
    {
      var k :| 0 <= k < |after| && outcomes[k].Relays(hasFanout) && after[k] == r;
      assert k < i ==> before[k] == r;
    }
    forall r | r in RelayedRows(before, outcomes, hasFanout) ensures r in RelayedRows(after, outcomes, hasFanout) {
      var k :| 0 <= k < |before| && outcomes[k].Relays(hasFanout) && before[k] == r;
      assert after[k] == r;
    }
    assert after[i] == batch[i];
  }

  lemma RemovingOneRow(all: set<Row>, gone: set<Row>, r: Row)
    requires r in all && forall x, y :: x in all && y in all && x.rowID == y.rowID ==> x == y
    ensures Removed(all - gone, r.rowID) == all - (gone + {r})
  {
  }

  predicate AllRelay(outcomes: seq<Outcome>, hasFanout: bool)
  {
    forall i :: 0 <= i < |outcomes| ==> outcomes[i].Relays(hasFanout)
  }

  /** A round in which every call succeeds removes min(100, n) of n pending rows. */
  lemma FullRoundShrinks(rows: set<Row>, batch: seq<Row>, outcomes: seq<Outcome>, hasFanout: bool)
    requires OldestBatch(rows, batch) && |outcomes| == |batch|
    ensures AllRelay(outcomes, hasFanout) ==>
              |rows - RelayedRows(batch, outcomes, hasFanout)| == |rows| - if |rows| <= POLL_LIMIT then |rows| else POLL_LIMIT
  {
    if AllRelay(outcomes, hasFanout) {
      AllRelayed(batch, outcomes, hasFanout);
      assert Distinct(batch);
      DistinctSize(batch);
      SubsetRemains(rows, Elements(batch));
    }
  }

  /** The rows that are to go no later than `r`. */
  function NoLater(rows: set<Row>, r: Row): set<Row> { set q | q in rows && q.createTime <= r.createTime }

  /** No row is starved: each fully successful round relays it, or 100 of the rows that go no
      later, whatever newer rows have come meanwhile. */
  lemma NoStarvation(rows: set<Row>, batch: seq<Row>, outcomes: seq<Outcome>, hasFanout: bool, r: Row)
    requires OldestBatch(rows, batch) && |outcomes| == |batch| && AllRelay(outcomes, hasFanout) && r in rows
    ensures var left := rows - RelayedRows(batch, outcomes, hasFanout);
            r in left ==> |NoLater(left, r)| == |NoLater(rows, r)| - 100
  {
    AllRelayed(batch, outcomes, hasFanout);
    var left := rows - Elements(batch);
    if r in left {
      DistinctSize(batch);
      WholeBatchSize(rows, batch, r);
      forall q | q in batch ensures q.createTime <= r.createTime {
        var i :| 0 <= i < |batch| && batch[i] == q;
      }
      assert NoLater(left, r) == NoLater(rows, r) - Elements(batch);
      SubsetRemains(NoLater(rows, r), Elements(batch));
    }
  }

  lemma WholeBatchSize(rows: set<Row>, batch: seq<Row>, r: Row)
    requires OldestBatch(rows, batch) && r in rows && r !in batch
    ensures |batch| == 100
  {
    assert Distinct(batch);
    DistinctSize(batch);
    if |rows| <= POLL_LIMIT { SubsetSize(Elements(batch), rows); }
  }

  lemma AllRelayed(batch: seq<Row>, outcomes: seq<Outcome>, hasFanout: bool)
    requires |outcomes| == |batch| && AllRelay(outcomes, hasFanout)
    ensures RelayedRows(batch, outcomes, hasFanout) == Elements(batch)
  {
    forall r | r in batch ensures r in RelayedRows(batch, outcomes, hasFanout) {
      var i :| 0 <= i < |batch| && batch[i] == r;
      assert outcomes[i].Relays(hasFanout);
    }
  }

  lemma SubsetRemains(rows: set<Row>, gone: set<Row>)
    requires gone <= rows
    ensures |rows - gone| == |rows| - |gone|
  {
    assert rows == gone + (rows - gone);
  }

  /** The first two steps of a consumer whose ZADD went through. */
  lemma AddTrimEffect(s: State, c: nat, trimOk: bool)
    requires Busy(s, c, ToAdd) && s.consumers[c].event.TimelineEvent?
    ensures Busy(Next(s, AddToTimeline(c, Heard)), c, ToTrim)
    ensures var s2 := Next(Next(s, AddToTimeline(c, Heard)), TrimTimeline(c, trimOk));
            && Busy(s2, c, ToAck) && s2.consumers[c].event == s.consumers[c].event
            && s2.consumers == s.consumers[c := s2.consumers[c]] && s2.queue == s.queue && s2.rows == s.rows
            && var added := s.timeline[FormatUint(s.consumers[c].event.videoID) := s.consumers[c].event.createTime];
               s2.timeline == if trimOk then ZRemRangeByRank(added, 0, -1001) else added
  {
  }

  lemma SendEffect(s: State, p: nat, rest: seq<Row>, send: Reply)
    requires rest != [] && p < |s.pollers| && s.pollers[p] == Sending(rest, AtTimeline)
    ensures var t := Next(s, SendTimeline(p, send));
            && t.rows == s.rows && t.hasFanout == s.hasFanout
            && t.pollers == s.pollers[p := if !send.Heard? then NextRow(rest) else Sending(rest, if s.hasFanout then AtFanout else AtDelete)]
  {
  }

  lemma FanoutEffect(s: State, p: nat, rest: seq<Row>, send: Reply)
    requires rest != [] && p < |s.pollers| && s.pollers[p] == Sending(rest, AtFanout)
    ensures var t := Next(s, SendFanout(p, send));
            && t.rows == s.rows && t.hasFanout == s.hasFanout
            && t.pollers == s.pollers[p := if send.Heard? then Sending(rest, AtDelete) else NextRow(rest)]
  {
  }

  class OutboxRelay {
    var state: State

    constructor (state: State)
      ensures this.state == state
    {
      this.state := state;
    }

    /** The publishing transaction: the video and its outbox row, or neither. */
    method PublishVideo(videoID: nat, authorID: nat, createTime: int, videoFault: bool, rowFault: bool) returns (ok: bool)
      requires videoID !in state.published
      modifies this
      ensures Reaches(old(state), state) && ok == (!videoFault && !rowFault)
      ensures state.published == if ok then old(state.published)[videoID := Post(authorID, createTime)] else old(state.published)
      ensures state.rows == if ok then old(state.rows) + {Row(old(state.nextRow), videoID, authorID, createTime)} else old(state.rows)
    {
      ghost var from := state;
      ReachesSelf(state);
      if videoFault {
        return false;
      }
      if rowFault {
        return false;
      }
      Step(Publish(videoID, authorID, createTime), from);
      ok := true;
    }

    /** One step of the protocol. */
    method Step(a: Action, ghost from: State)
      requires Enabled(state, a) && Reaches(from, state)
      modifies this
      ensures state == Next(old(state), a) && Reaches(from, state)
    {
      ReachesStep(from, state, a);
      state := Next(state, a);
    }

    /** Send to both queues, then delete; a failed send leaves the row for the next round. */
    method RelayRow(p: nat, rest: seq<Row>, o: Outcome, ghost from: State)
      requires Reaches(from, state) && rest != []
      requires p < |state.pollers| && state.pollers[p] == Sending(rest, AtTimeline)
      modifies this
      ensures Reaches(from, state)
      ensures state.pollers == old(state.pollers)[p := NextRow(rest)] && state.hasFanout == old(state.hasFanout)
      ensures state.rows == if o.Relays(state.hasFanout) then Removed(old(state.rows), rest[0].rowID) else old(state.rows)
    {
      SendEffect(state, p, rest, o.timeline);
      Step(SendTimeline(p, o.timeline), from);
      if !o.timeline.Heard? {
        return;
      }
      if state.hasFanout {
        FanoutEffect(state, p, rest, o.fanout);
        Step(SendFanout(p, o.fanout), from);
        if !o.fanout.Heard? {
          return;
        }
      }
      Step(DeleteRow(p, o.deleted), from);
    }

    method RelayBatch(p: nat, batch: seq<Row>, outcomes: seq<Outcome>, ghost from: State)
      requires RowsOk(state) && Reaches(from, state) && batch != [] && |outcomes| == |batch|
      requires forall r :: r in batch ==> r in state.rows
      requires p < |state.pollers| && state.pollers[p] == Sending(batch, AtTimeline)
      modifies this
      ensures Reaches(from, state) && p < |state.pollers| && state.pollers[p].Idle?
      ensures state.rows == old(state.rows) - RelayedRows(batch, outcomes, old(state.hasFanout))
    {
      ghost var rows, hasFanout := state.rows, state.hasFanout;
      assert batch[0..] == batch;
      for i := 0 to |batch|
        invariant Reaches(from, state) && state.hasFanout == hasFanout && p < |state.pollers|
        invariant state.pollers[p] == if i < |batch| then Sending(batch[i..], AtTimeline) else Idle
        invariant state.rows == rows - RelayedRows(batch[..i], outcomes, hasFanout)
      {
        RelayRow(p, batch[i..], outcomes[i], from);
        RelayedRowsStep(batch, outcomes, hasFanout, i);
        RemovingOneRow(rows, RelayedRows(batch[..i], outcomes, hasFanout), batch[i]);
      }
      assert batch[..|batch|] == batch;
    }

    /** One turn of the poll loop, for whatever batch the query returned. */
    method PollRound(p: nat, batch: seq<Row>, outcomes: seq<Outcome>)
      requires RowsOk(state) && p < |state.pollers| && state.pollers[p].Idle?
      requires OldestBatch(state.rows, batch) && |outcomes| == |batch|
      modifies this
      ensures Reaches(old(state), state) && p < |state.pollers| && state.pollers[p].Idle?
      ensures state.rows == old(state.rows) - RelayedRows(batch, outcomes, old(state.hasFanout))
      ensures AllRelay(outcomes, old(state.hasFanout)) ==>
                |state.rows| == |old(state.rows)| - if |old(state.rows)| <= POLL_LIMIT then |old(state.rows)| else POLL_LIMIT
    {
      ghost var from := state;
      ReachesSelf(state);
      FullRoundShrinks(state.rows, batch, outcomes, state.hasFanout);
      if |batch| > 0 {
        Step(Fetch(p, batch), from);
        RelayBatch(p, batch, outcomes, from);
      }
    }

    /** ZADD or Nack; then trim, whose failure is only logged; then Ack. */
    method AddTrimAck(c: nat, zadd: Reply, trimOk: bool, ackOk: bool)
      requires Busy(state, c, ToAdd) && state.consumers[c].event.TimelineEvent?
      modifies this
      ensures Reaches(old(state), state)
      ensures state.consumers == old(state.consumers)[c := Waiting]
      ensures var e := old(state.consumers[c].event);
              var added := if zadd.Applied() then old(state.timeline)[FormatUint(e.videoID) := e.createTime] else old(state.timeline);
              state.timeline == if zadd.Heard? && trimOk then ZRemRangeByRank(added, 0, -1001) else added
      ensures state.queue == old(state.queue) - if zadd.Heard? && ackOk then multiset{old(state.consumers[c].event)} else multiset{}
      ensures state.rows == old(state.rows)
    {
      ghost var from := state;
      ReachesSelf(state);
      Step(AddToTimeline(c, zadd), from);
      if !zadd.Heard? {
        return;
      }
      AddTrimEffect(from, c, trimOk);
      Step(TrimTimeline(c, trimOk), from);
      Step(AckDelivery(c, ackOk), from);
    }

    /** One delivery; a body that does not decode goes back to the queue. */
    method HandleDelivery(c: nat, zadd: Reply, trimOk: bool, ackOk: bool)
      requires Busy(state, c, ToAdd)
      modifies this
      ensures Reaches(old(state), state)
      ensures state.consumers == old(state.consumers)[c := Waiting]
      // What does not decode changes nothing; an event is added under its own id and time, and
      // all but the newest 1000 are trimmed.
      ensures match old(state.consumers[c].event) {
                case Undecodable => state.timeline == old(state.timeline)
                case TimelineEvent(v, t) =>
                  var added := if zadd.Applied() then old(state.timeline)[FormatUint(v) := t] else old(state.timeline);
                  state.timeline == if zadd.Heard? && trimOk then ZRemRangeByRank(added, 0, -1001) else added
              }
      ensures var body := old(state.consumers[c].event);
              state.queue == old(state.queue) - if body.TimelineEvent? && zadd.Heard? && ackOk then multiset{body} else multiset{}
      ensures state.rows == old(state.rows)
    {
      if state.consumers[c].event.Undecodable? {
        ghost var from := state;
        ReachesSelf(state);
        Step(AddToTimeline(c, Unheard(false)), from);
      } else {
        AddTrimAck(c, zadd, trimOk, ackOk);
      }
    }
  }
}
