/** Follow and unfollow: each accepted request is published to a queue and then written
    synchronously, and a worker replays the queue onto the same relation. */
module SocialReplay {
  import opened Wrappers
  import opened Runs

  datatype Pair = Pair(follower: nat, vlogger: nat)

  datatype Event = Event(follow: bool, pair: Pair)

  /** Insert (a duplicate key is ignored) or delete (no row is no error). */
  function Apply(relation: set<Pair>, e: Event): set<Pair>
  {
    if e.follow then relation + {e.pair} else relation - {e.pair}
  }

  /** The relation once the whole queue has been consumed in order. */
  function Replay(relation: set<Pair>, queue: seq<Event>): set<Pair>
    decreases |queue|
  {
    if queue == [] then relation else Replay(Apply(relation, queue[0]), queue[1..])
  }

  lemma {:induction false} ReplayAppend(relation: set<Pair>, queue: seq<Event>, e: Event)
    ensures Replay(relation, queue + [e]) == Apply(Replay(relation, queue), e)
    decreases |queue|
  {
    if queue == [] {
      assert queue + [e] == [e];
    } else {
      assert (queue + [e])[1..] == queue[1..] + [e];
      ReplayAppend(Apply(relation, queue[0]), queue[1..], e);
    }
  }

  /** The last queued operation on a pair, if any. */
  function LastOn(queue: seq<Event>, p: Pair): Option<bool>
  {
    if queue == [] then None
    else
      var e := queue[|queue| - 1];
      if e.pair == p then Some(e.follow) else LastOn(queue[..|queue| - 1], p)
  }

  /** The last queued operation on a pair decides it; without one the relation does. */
  lemma {:induction false} LastDecides(relation: set<Pair>, queue: seq<Event>, p: Pair)
    ensures p in Replay(relation, queue) <==> (if LastOn(queue, p).Some? then LastOn(queue, p).value else p in relation)
    decreases |queue|
  {
    if queue != [] {
      var before, e := queue[..|queue| - 1], queue[|queue| - 1];
      assert queue == before + [e];
      LastDecides(relation, before, p);
      ReplayAppend(relation, before, e);
    }
  }

  /** Writing what the queue will end with anyway changes nothing in the end. */
  lemma WriteIsAbsorbed(relation: set<Pair>, queue: seq<Event>, e: Event)
    requires (e.pair in Replay(relation, queue)) == e.follow
    ensures Replay(Apply(relation, e), queue) == Replay(relation, queue)
  {
    forall p ensures p in Replay(Apply(relation, e), queue) <==> p in Replay(relation, queue) {
      LastDecides(relation, queue, p);
      LastDecides(Apply(relation, e), queue, p);
    }
  }

  // ---------- the protocol ----------

  datatype State = State(
    relation: set<Pair>,
    queue: seq<Event>,
    writing: map<Pair, bool>,     // accepted requests whose synchronous write is outstanding
    intended: set<Pair>)          // pairs whose last accepted request was a follow

  function Init(): State { State({}, [], map[], {}) }

  datatype Action =
    | Accept(event: Event, published: bool)    // the check passed; publish, whose error is ignored
    | Write(pair: Pair, ok: bool)              // the synchronous write, which may fail
    | Consume(applied: bool, acked: bool)      // the head delivery: error, redelivery or done

  /** Requests on one pair do not overlap; a follow is accepted only when the relation lacks
      the pair, an unfollow only when it has it. */
  predicate Enabled(s: State, a: Action)
  {
    match a
    case Accept(e, _) => e.pair !in s.writing && (e.follow ==> e.pair.follower != e.pair.vlogger) && (e.pair in s.relation) != e.follow
    case Write(p, _) => p in s.writing
    case Consume(applied, acked) => s.queue != [] && (acked ==> applied)
  }

  function Next(s: State, a: Action): State
    requires Enabled(s, a)
  {
    match a
    case Accept(e, published) =>
      State(s.relation, if published then s.queue + [e] else s.queue,
            s.writing[e.pair := e.follow], Apply(s.intended, e))
    case Write(p, ok) =>
      s.(relation := if ok then Apply(s.relation, Event(s.writing[p], p)) else s.relation, writing := s.writing - {p})
    case Consume(applied, acked) =>
      s.(relation := if applied then Apply(s.relation, s.queue[0]) else s.relation,
         queue := if acked then s.queue[1..] else s.queue)
  }

  /** An outstanding write is the pair's last accepted request. */
  ghost predicate WritesOk(s: State) { forall p :: p in s.writing ==> (s.writing[p] <==> p in s.intended) }

  ghost predicate Inv(s: State) { Replay(s.relation, s.queue) == s.intended && WritesOk(s) }

  /** The same with one pair left out of account. */
  ghost predicate InvBut(s: State, but: Pair)
  {
    (forall p :: p != but ==> (p in Replay(s.relation, s.queue) <==> p in s.intended)) && WritesOk(s)
  }

  predicate Reliable(a: Action) { a.Accept? ==> a.published }

  /** A write moves the replay on its own pair only, and only when nothing is queued on it. */
  lemma WriteEffect(s: State, p: Pair, x: Pair)
    requires p in s.writing
    ensures var t := Next(s, Write(p, true));
            x in Replay(t.relation, t.queue) <==>
              if x == p && LastOn(s.queue, p).None? then s.writing[p] else x in Replay(s.relation, s.queue)
  {
    LastDecides(s.relation, s.queue, x);
    LastDecides(Next(s, Write(p, true)).relation, s.queue, x);
  }

  /** Consuming the head, once or again, does not move the replay. */
  lemma ConsumeEffect(s: State, a: Action)
    requires Enabled(s, a) && a.Consume?
    ensures Replay(Next(s, a).relation, Next(s, a).queue) == Replay(s.relation, s.queue)
  {
    var e := s.queue[0];
    assert Apply(Apply(s.relation, e), e) == Apply(s.relation, e);
  }

  lemma NextKeepsInvBut(s: State, a: Action, but: Pair)
    requires InvBut(s, but) && Enabled(s, a) && Reliable(a)
    ensures InvBut(Next(s, a), but)
  {
    var t := Next(s, a);
    match a
    case Accept(e, _) => ReplayAppend(s.relation, s.queue, e);
    case Write(p, ok) =>
      forall x | x != but ensures x in Replay(t.relation, t.queue) <==> x in t.intended {
        if ok { WriteEffect(s, p, x); LastDecides(s.relation, s.queue, x); }
      }
    case Consume(_, _) => ConsumeEffect(s, a);
  }

  lemma NextKeepsInv(s: State, a: Action)
    requires Inv(s) && Enabled(s, a) && Reliable(a)
    ensures Inv(Next(s, a))
  {
    match a
    case Accept(e, _) => ReplayAppend(s.relation, s.queue, e);
    case Write(p, ok) => if ok { WriteIsAbsorbed(s.relation, s.queue, Event(s.writing[p], p)); }
    case Consume(_, _) => ConsumeEffect(s, a);
  }

  ghost predicate Steps(s: State, t: State) { exists a :: Enabled(s, a) && Reliable(a) && Next(s, a) == t }

  ghost predicate IsHistory(run: seq<State>) { IsRun(run, Steps) && run[0] == Init() }

  lemma StepsKeepInv(s: State, t: State)
    requires Inv(s) && Steps(s, t)
    ensures Inv(t)
  {
    var a :| Enabled(s, a) && Reliable(a) && Next(s, a) == t;
    NextKeepsInv(s, a);
  }

  lemma HistoryKeepsInv(run: seq<State>, i: nat)
    requires IsHistory(run) && i < |run|
    ensures Inv(run[i])
  {
    forall s, t | Inv(s) && Steps(s, t) ensures Inv(t) { StepsKeepInv(s, t); }
    Invariant(run, Steps, Inv, i);
  }

  /** At every point of every run without a lost publish, replaying what is queued onto the
      relation gives each pair's last accepted request. */
  lemma ReplayIsIntent(run: seq<State>, i: nat)
    requires IsHistory(run) && i < |run|
    ensures Replay(run[i].relation, run[i].queue) == run[i].intended
  {
    HistoryKeepsInv(run, i);
  }

  /** So a drained queue leaves exactly what users last asked for, double writes, failed
      writes and redeliveries notwithstanding. */
  lemma DrainedIsIntent(run: seq<State>, i: nat)
    requires IsHistory(run) && i < |run| && run[i].queue == []
    ensures run[i].relation == run[i].intended
  {
    HistoryKeepsInv(run, i);
  }

  // ---------- a lost publish ----------

  /** Losing a publish puts only its own pair in doubt. */
  lemma LostPublishDoubtsOnePair(s: State, e: Event)
    requires Inv(s) && Enabled(s, Accept(e, false))
    ensures InvBut(Next(s, Accept(e, false)), e.pair)
  {
  }

  lemma StepsKeepInvBut(s: State, t: State, but: Pair)
    requires InvBut(s, but) && Steps(s, t)
    ensures InvBut(t, but)
  {
    var a :| Enabled(s, a) && Reliable(a) && Next(s, a) == t;
    NextKeepsInvBut(s, a, but);
  }

  lemma DoubtStaysOnOnePair(run: seq<State>, i: nat, but: Pair)
    requires IsRun(run, Steps) && i < |run| && InvBut(run[0], but)
    ensures InvBut(run[i], but)
  {
    forall s, t | InvBut(s, but) && Steps(s, t) ensures InvBut(t, but) { StepsKeepInvBut(s, t, but); }
    Invariant(run, Steps, s => InvBut(s, but), i);
  }

  lemma OutstandingStep(s: State, t: State, p: Pair)
    requires Steps(s, t) && p in s.writing && p in t.writing
    ensures t.writing[p] == s.writing[p]
  {
    var a :| Enabled(s, a) && Reliable(a) && Next(s, a) == t;
  }

  lemma {:induction false} OutstandingStays(run: seq<State>, i: nat, p: Pair)
    requires IsRun(run, Steps) && i < |run| && forall k :: 0 <= k <= i ==> p in run[k].writing
    ensures run[i].writing[p] == run[0].writing[p]
  {
    if i > 0 {
      OutstandingStays(run, i - 1, p);
      assert Steps(run[i - 1], run[i]);
      OutstandingStep(run[i - 1], run[i], p);
    }
  }

  /** With one pair in doubt, the write of that pair settles it exactly when the opposite
      operation is not what is queued last on it. */
  lemma WriteSettlesExactly(s: State, p: Pair)
    requires InvBut(s, p) && p in s.writing
    ensures Inv(Next(s, Write(p, true))) <==> LastOn(s.queue, p) != Some(!s.writing[p])
  {
    var t := Next(s, Write(p, true));
    forall x ensures x in Replay(t.relation, t.queue) <==>
        if x == p && LastOn(s.queue, p).None? then s.writing[p] else x in Replay(s.relation, s.queue)
    {
      WriteEffect(s, p, x);
    }
    LastDecides(s.relation, s.queue, p);
    assert p in Replay(t.relation, t.queue) <==> if LastOn(s.queue, p).Some? then LastOn(s.queue, p).value else s.writing[p];
  }

  /** A request whose publish is lost: whatever reliable steps come before its write, once the
      write has succeeded the replay gives every user's intent if and only if, at that moment,
      no opposite operation on the pair is queued last. */
  lemma LostPublishExactly(s: State, e: Event, run: seq<State>, i: nat)
    requires Inv(s) && Enabled(s, Accept(e, false))
    requires IsRun(run, Steps) && run[0] == Next(s, Accept(e, false)) && i < |run|
    requires forall k :: 0 <= k <= i ==> e.pair in run[k].writing
    ensures var t := Next(run[i], Write(e.pair, true));
            (Replay(t.relation, t.queue) == t.intended) <==> LastOn(run[i].queue, e.pair) != Some(!e.follow)
  {
    LostPublishDoubtsOnePair(s, e);
    DoubtStaysOnOnePair(run, i, e.pair);
    OutstandingStays(run, i, e.pair);
    WriteSettlesExactly(run[i], e.pair);
  }

  /** The damage is limited to the pair and lasts until its next published request, whatever
      happens in between. */
  lemma NextPublishHeals(run: seq<State>, i: nat, e: Event)
    requires IsRun(run, Steps) && i < |run| && InvBut(run[0], e.pair) && Enabled(run[i], Accept(e, true))
    ensures Inv(Next(run[i], Accept(e, true)))
  {
    DoubtStaysOnOnePair(run, i, e.pair);
    ReplayAppend(run[i].relation, run[i].queue, e);
  }

  /** It does go wrong: a follow still queued when the unfollow's publish is lost comes back
      after the unfollow has been written. */
  lemma StaleFollowReturns(p: Pair)
    requires p.follower != p.vlogger
    ensures var s1 := Next(Init(), Accept(Event(true, p), true));
            var s2 := Next(s1, Write(p, true));
            var s3 := Next(s2, Accept(Event(false, p), false));
            var s4 := Next(s3, Write(p, true));
            var s5 := Next(s4, Consume(true, true));
            s5.queue == [] && s5.relation == {p} && s5.intended == {}
  {
    assert [Event(true, p)][1..] == [];
  }

  // ---------- the service and the worker ----------

  datatype Outcome = Done | AccountMissing | SelfFollow | LookupFailed | AlreadyFollowed | NotFollowed | WriteFailed

  /** A message as it travels; only these two actions mean anything. */
  datatype Message = Message(action: string, followerID: nat, vloggerID: nat)

  /** What the service publishes for an accepted request. */
  function MessageOf(e: Event): Message
  {
    Message(if e.follow then "follow" else "unfollow", e.pair.follower, e.pair.vlogger)
  }

  /** The body asks for this action on this pair. */
  ghost predicate Names(body: Option<Message>, action: string, p: Pair)
  {
    body == Some(Message(action, p.follower, p.vlogger)) && p.follower != 0 && p.vlogger != 0
  }

  /** Accepting the request and writing it leads from `s` to this relation and queue. */
  ghost predicate Accepts(s: State, e: Event, published: bool, written: bool, relation: set<Pair>, queue: seq<Event>)
  {
    && Enabled(s, Accept(e, published))
    && var t := Next(s, Accept(e, published));
       && Enabled(t, Write(e.pair, written))
       && Next(t, Write(e.pair, written)).relation == relation && Next(t, Write(e.pair, written)).queue == queue
  }

  class SocialStore {
    var relation: set<Pair>
    var queue: seq<Event>

    constructor ()
      ensures relation == {} && queue == []
    {
      relation, queue := {}, [];
    }

    /** INSERT: a duplicate key is an error here. */
    method RepoFollow(p: Pair, fault: bool) returns (ok: bool, duplicate: bool)
      modifies this`relation
      ensures ok == (!fault && p !in old(relation)) && duplicate == (!fault && p in old(relation))
      ensures relation == if ok then old(relation) + {p} else old(relation)
    {
      ok, duplicate := !fault && p !in relation, !fault && p in relation;
      if ok {
        relation := relation + {p};
      }
    }

    method RepoUnfollow(p: Pair, fault: bool) returns (ok: bool)
      modifies this`relation
      ensures ok == !fault && relation == if ok then old(relation) - {p} else old(relation)
    {
      ok := !fault;
      if ok {
        relation := relation - {p};
      }
    }

    method Follow(p: Pair, accountsOk: bool, lookupFault: bool, published: bool, fault: bool) returns (r: Outcome)
      modifies this
      ensures r == if !accountsOk then AccountMissing else if p.follower == p.vlogger then SelfFollow
                   else if lookupFault then LookupFailed else if p in old(relation) then AlreadyFollowed
                   else if fault then WriteFailed else Done
      ensures r in {Done, WriteFailed} ==>
                && queue == (if published then old(queue) + [Event(true, p)] else old(queue))
                && relation == (if r.Done? then old(relation) + {p} else old(relation))
      ensures r !in {Done, WriteFailed} ==> queue == old(queue) && relation == old(relation)
      // The two steps of the protocol, in any state with this relation and queue.
      ensures r in {Done, WriteFailed} ==> forall s: State ::
                s.relation == old(relation) && s.queue == old(queue) && p !in s.writing ==> Accepts(s, Event(true, p), published, r.Done?, relation, queue)
    {
      if !accountsOk {
        return AccountMissing;
      }
      if p.follower == p.vlogger {
        return SelfFollow;
      }
      if lookupFault {
        return LookupFailed;
      }
      if p in relation {
        return AlreadyFollowed;
      }
      if published {
        queue := queue + [Event(true, p)];
      }
      var ok, _ := RepoFollow(p, fault);
      r := if ok then Done else WriteFailed;
    }

    method Unfollow(p: Pair, accountsOk: bool, lookupFault: bool, published: bool, fault: bool) returns (r: Outcome)
      modifies this
      ensures r == if !accountsOk then AccountMissing else if lookupFault then LookupFailed
                   else if p !in old(relation) then NotFollowed else if fault then WriteFailed else Done
      ensures r in {Done, WriteFailed} ==>
                && queue == (if published then old(queue) + [Event(false, p)] else old(queue))
                && relation == (if r.Done? then old(relation) - {p} else old(relation))
      ensures r !in {Done, WriteFailed} ==> queue == old(queue) && relation == old(relation)
      ensures r in {Done, WriteFailed} ==> forall s: State ::
                s.relation == old(relation) && s.queue == old(queue) && p !in s.writing ==> Accepts(s, Event(false, p), published, r.Done?, relation, queue)
    {
      if !accountsOk {
        return AccountMissing;
      }
      if lookupFault {
        return LookupFailed;
      }
      if p !in relation {
        return NotFollowed;
      }
      if published {
        queue := queue + [Event(false, p)];
      }
      var ok := RepoUnfollow(p, fault);
      r := if ok then Done else WriteFailed;
    }

    /** One delivery: Ack unless the statement failed for a reason other than a duplicate. A
        body that does not parse (None), lacks an id or names another action is dropped. */
    method HandleDelivery(body: Option<Message>, fault: bool) returns (acked: bool)
      modifies this`relation
      ensures acked <==> !fault || forall p :: !Names(body, "follow", p) && !Names(body, "unfollow", p)
      ensures forall p :: p in relation <==>
                if Names(body, "follow", p) && !fault then true else if Names(body, "unfollow", p) && !fault then false else p in old(relation)
      // The protocol's step on the head of a queue that holds this message.
      ensures forall s: State ::
                s.relation == old(relation) && s.queue != [] && body == Some(MessageOf(s.queue[0])) &&
                s.queue[0].pair.follower != 0 && s.queue[0].pair.vlogger != 0 ==>
                  && Enabled(s, Consume(!fault, acked))
                  && Next(s, Consume(!fault, acked)) == s.(relation := relation, queue := if acked then s.queue[1..] else s.queue)
    {
      if body.None? {
        return true;
      }
      var m := body.value;
      if m.followerID == 0 || m.vloggerID == 0 {
        return true;
      }
      var p := Pair(m.followerID, m.vloggerID);
      assert m == Message(m.action, p.follower, p.vlogger);
      if m.action == "follow" {
        assert Names(body, "follow", p);
        var ok, duplicate := RepoFollow(p, fault);
        acked := ok || duplicate;
        assert p in old(relation) ==> old(relation) + {p} == old(relation);
      } else if m.action == "unfollow" {
        assert Names(body, "unfollow", p);
        acked := RepoUnfollow(p, fault);
      } else {
        acked := true;
      }
    }
  }
}
