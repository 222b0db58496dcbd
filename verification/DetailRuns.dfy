/** Many clients loading the same video through `GetDetail` at once: what the lock buys. Each
    client that got the lock is known by its token; pauses, lost replies, expiring leases,
    evictions and refills by clients without the lock fall anywhere. */
module DetailRuns {
  import opened Collections
  import opened Runs
  import RedisLock
  import opened Wrappers
  import VideoDetail
  import FeedTable

  /** Where a client between `Lock` and `UnLock` stands. */
  datatype Phase = LookingAgain | Querying | Storing | Releasing

  datatype State = State(
    lock: RedisLock.State,
    section: map<nat, Phase>,   // the clients between Lock and UnLock
    cached: bool,               // does Redis hold the row
    queried: seq<nat>)          // who has queried the database under the lock, in order

  datatype Action =
    | Tick(to: int)
    | Expire
    | Enter(token: nat, ttl: nat, reply: Reply)
    | LookAgain(token: nat, fault: bool)
    | Query(token: nat, found: bool)      // not found also stands for a failed query
    | Store(token: nat, fault: bool)
    | Leave(token: nat, reached: bool)
    | Refill                              // by a client that went to the database without the lock
    | Evict

  function Init(now: int): State { State(RedisLock.Init(now), map[], false, []) }

  predicate At(s: State, token: nat, phase: Phase) { token in s.section && s.section[token] == phase }

  /** What the action does to the lock, if anything. */
  function LockStep(a: Action): seq<RedisLock.Action>
  {
    match a
    case Tick(to) => [RedisLock.Tick(to)]
    case Expire => [RedisLock.Expire]
    case Enter(token, ttl, reply) => [RedisLock.Lock(token, ttl, reply)]
    case Leave(token, reached) => [RedisLock.UnLock(token, reached)]
    case _ => []
  }

  predicate Enabled(s: State, a: Action)
  {
    && (LockStep(a) != [] ==> RedisLock.Enabled(s.lock, LockStep(a)[0]))
    && match a
       case LookAgain(token, _) => At(s, token, LookingAgain)
       case Query(token, _) => At(s, token, Querying)
       case Store(token, _) => At(s, token, Storing)
       case Leave(token, _) => At(s, token, Releasing)
       case _ => true
  }

  function Moved(s: State, token: nat, phase: Phase): State { s.(section := s.section[token := phase]) }

  function Next(s: State, a: Action): State
    requires Enabled(s, a)
  {
    var s1 := if LockStep(a) == [] then s else s.(lock := RedisLock.Next(s.lock, LockStep(a)[0]));
    match a
    case Enter(token, _, _) => if token in s1.lock.leases then Moved(s1, token, LookingAgain) else s1
    case LookAgain(token, fault) => Moved(s, token, if s.cached && !fault then Releasing else Querying)
    case Query(token, found) => Moved(s, token, if found then Storing else Releasing).(queried := s.queried + [token])
    case Store(token, fault) => Moved(s, token, Releasing).(cached := s.cached || !fault)
    case Leave(token, _) => s1.(section := s.section - {token})
    case Refill => s.(cached := true)
    case Evict => s.(cached := false)
    case _ => s1
  }

  /** Who is in the section was granted the lock and has queried at most once, on its way. */
  ghost predicate Inv(s: State)
  {
    && RedisLock.Inv(s.lock)
    && s.section.Keys <= s.lock.leases.Keys
    && Distinct(s.queried)
    && (forall t :: t in s.queried ==> t in s.lock.issued && !At(s, t, LookingAgain) && !At(s, t, Querying))
  }

  lemma NextKeepsLockInv(s: State, a: Action)
    requires Inv(s) && Enabled(s, a)
    ensures RedisLock.Inv(Next(s, a).lock) && Next(s, a).section.Keys <= Next(s, a).lock.leases.Keys
  {
    if LockStep(a) != [] { RedisLock.NextKeepsInv(s.lock, LockStep(a)[0]); }
  }

  lemma NextKeepsInv(s: State, a: Action)
    requires Inv(s) && Enabled(s, a)
    ensures Inv(Next(s, a))
  {
    NextKeepsLockInv(s, a);
  }

  ghost predicate Steps(s: State, t: State) { exists a :: Enabled(s, a) && Next(s, a) == t }

  lemma StepsKeepInv(s: State, t: State)
    requires Inv(s) && Steps(s, t)
    ensures Inv(t)
  {
    var a :| Enabled(s, a) && Next(s, a) == t;
    NextKeepsInv(s, a);
  }

  ghost predicate IsHistory(run: seq<State>) { IsRun(run, Steps) && run[0] == Init(run[0].lock.now) }

  lemma HistoryKeepsInv(run: seq<State>, i: nat)
    requires IsHistory(run) && i < |run|
    ensures Inv(run[i])
  {
    forall s, t | Inv(s) && Steps(s, t) ensures Inv(t) { StepsKeepInv(s, t); }
    Invariant(run, Steps, Inv, i);
  }

  /** At no point of any run are two clients with unexpired leases between Lock and UnLock. */
  lemma OneClientInSection(run: seq<State>, i: nat, a: nat, b: nat)
    requires IsHistory(run) && i < |run| && a in run[i].section && b in run[i].section
    ensures a in run[i].lock.leases && b in run[i].lock.leases
    ensures run[i].lock.now < run[i].lock.leases[a] && run[i].lock.now < run[i].lock.leases[b] ==> a == b
  {
    HistoryKeepsInv(run, i);
    assert RedisLock.Holds(run[i].lock, a) && RedisLock.Holds(run[i].lock, b) ==> a == b;
  }

  /** However long a client pauses, each grant of the lock leads to at most one query. */
  lemma OneQueryPerLease(run: seq<State>, i: nat)
    requires IsHistory(run) && i < |run|
    ensures Distinct(run[i].queried)
  {
    HistoryKeepsInv(run, i);
  }

  /** A client enters the section exactly when the lock is free and it hears that it got it. */
  lemma EnterExactly(s: State, token: nat, ttl: nat, reply: Reply)
    requires Inv(s) && Enabled(s, Enter(token, ttl, reply))
    ensures At(Next(s, Enter(token, ttl, reply)), token, LookingAgain) <==> s.lock.stored.None? && reply.Heard?
    ensures token in Next(s, Enter(token, ttl, reply)).section <==> token in Next(s, Enter(token, ttl, reply)).lock.leases
  {
  }

  /** When it leaves in time, the lock is free for the next one. */
  lemma LeaveFrees(s: State, token: nat)
    requires Inv(s) && Enabled(s, Leave(token, true)) && RedisLock.Holds(s.lock, token)
    ensures Next(s, Leave(token, true)).lock.stored == None && token !in Next(s, Leave(token, true)).section
  {
    assert RedisLock.Holds(s.lock, token);
  }

  // ---------- one query for all ----------

  /** Nothing goes wrong: no call fails, nothing is evicted, the row exists, and no lease runs
      out before its client has left. */
  ghost predicate Clean(s: State, a: Action)
  {
    match a
    case Tick(to) => forall t :: t in s.section && t in s.lock.leases ==> to < s.lock.leases[t]
    case Enter(_, ttl, _) => ttl > 0
    case LookAgain(_, fault) => !fault
    case Query(_, found) => found
    case Store(_, fault) => !fault
    case Evict => false
    case _ => true
  }

  ghost predicate CleanSteps(s: State, t: State) { exists a :: Enabled(s, a) && Clean(s, a) && Next(s, a) == t }

  /** Everyone in the section holds the lock, so there is one at most. */
  ghost predicate AllHold(s: State) { forall t :: t in s.section ==> RedisLock.Holds(s.lock, t) }

  /** Either nobody has queried since, or one has and its row is in Redis or on its way. */
  ghost predicate Settled(s: State, asked: nat)
  {
    || (|s.queried| == asked && forall t :: !At(s, t, Storing))
    || (|s.queried| == asked + 1 && s.cached && forall t :: !At(s, t, Querying))
    || (|s.queried| == asked + 1 && exists t :: At(s, t, Storing))
  }

  lemma CleanKeepsHold(s: State, a: Action)
    requires Inv(s) && AllHold(s) && Enabled(s, a) && Clean(s, a)
    ensures AllHold(Next(s, a))
  {
    NextKeepsInv(s, a);
    var s' := Next(s, a);
    forall t | t in s'.section ensures RedisLock.Holds(s'.lock, t) {
      if t in s.section { assert RedisLock.Holds(s.lock, t); }
    }
  }

  lemma OnlyOne(s: State, a: nat, b: nat)
    requires Inv(s) && AllHold(s) && a in s.section && b in s.section
    ensures a == b
  {
    assert RedisLock.Holds(s.lock, a) && RedisLock.Holds(s.lock, b);
  }

  /** While one client stores, no other can be about to look or to query. */
  lemma StorerIsAlone(s: State, t: nat)
    requires Inv(s) && AllHold(s) && t in s.section && !At(s, t, Storing)
    ensures forall u :: !At(s, u, Storing)
  {
    forall u | u in s.section ensures u == t { OnlyOne(s, u, t); }
  }

  lemma QueryKeepsSettled(s: State, t: nat, asked: nat)
    requires Inv(s) && AllHold(s) && Settled(s, asked) && At(s, t, Querying)
    ensures Settled(Next(s, Query(t, true)), asked)
  {
    StorerIsAlone(s, t);
    assert At(Next(s, Query(t, true)), t, Storing);
  }

  lemma StoreKeepsSettled(s: State, t: nat, asked: nat)
    requires Inv(s) && AllHold(s) && Settled(s, asked) && At(s, t, Storing)
    ensures Settled(Next(s, Store(t, false)), asked)
  {
    forall u | u in s.section ensures u == t { OnlyOne(s, u, t); }
  }

  lemma LookKeepsSettled(s: State, t: nat, asked: nat)
    requires Inv(s) && AllHold(s) && Settled(s, asked) && At(s, t, LookingAgain)
    ensures Settled(Next(s, LookAgain(t, false)), asked)
  {
    StorerIsAlone(s, t);
  }

  lemma CleanKeepsSettled(s: State, a: Action, asked: nat)
    requires Inv(s) && AllHold(s) && Settled(s, asked) && Enabled(s, a) && Clean(s, a)
    ensures Settled(Next(s, a), asked)
  {
    match a
    case LookAgain(t, _) => LookKeepsSettled(s, t, asked);
    case Query(t, _) => QueryKeepsSettled(s, t, asked);
    case Store(t, _) => StoreKeepsSettled(s, t, asked);
    case _ => OthersKeepSettled(s, a, asked);
  }

  lemma OthersKeepSettled(s: State, a: Action, asked: nat)
    requires Inv(s) && AllHold(s) && Settled(s, asked) && Enabled(s, a) && Clean(s, a)
    requires !a.LookAgain? && !a.Query? && !a.Store?
    ensures Settled(Next(s, a), asked)
  {
    forall t, p | p != LookingAgain && p != Releasing ensures At(Next(s, a), t, p) <==> At(s, t, p) {
      OthersMoveNobody(s, a, t, p);
    }
  }

  lemma OthersMoveNobody(s: State, a: Action, t: nat, p: Phase)
    requires Inv(s) && Enabled(s, a) && Clean(s, a)
    requires !a.LookAgain? && !a.Query? && !a.Store? && p != LookingAgain && p != Releasing
    ensures Next(s, a).queried == s.queried && (s.cached ==> Next(s, a).cached)
    ensures At(Next(s, a), t, p) <==> At(s, t, p)
  {
  }

  ghost predicate Calm(s: State, asked: nat) { Inv(s) && AllHold(s) && Settled(s, asked) }

  lemma CleanStepsKeepCalm(s: State, t: State, asked: nat)
    requires Calm(s, asked) && CleanSteps(s, t)
    ensures Calm(t, asked)
  {
    var a :| Enabled(s, a) && Clean(s, a) && Next(s, a) == t;
    NextKeepsInv(s, a);
    CleanKeepsHold(s, a);
    CleanKeepsSettled(s, a, asked);
  }

  lemma CleanRun(run: seq<State>, asked: nat)
    requires IsRun(run, CleanSteps) && Calm(run[0], asked)
    ensures Calm(run[|run| - 1], asked)
  {
    forall s, t | Calm(s, asked) && CleanSteps(s, t) ensures Calm(t, asked) { CleanStepsKeepCalm(s, t, asked); }
    Invariant(run, CleanSteps, (s: State) => Calm(s, asked), |run| - 1);
  }

  /** From any moment of any run when the section is empty, as long as nothing goes wrong,
      all clients together query the database under the lock once at most. */
  lemma OneQueryForAll(run: seq<State>, i: nat, j: nat)
    requires IsHistory(run) && i <= j < |run| && run[i].section == map[]
    requires IsRun(run[i..j + 1], CleanSteps)
    ensures |run[j].queried| <= |run[i].queried| + 1
  {
    HistoryKeepsInv(run, i);
    CleanRun(run[i..j + 1], |run[i].queried|);
  }

  // ---------- the code between Lock and UnLock ----------

  lemma TakeStep(from: State, s: State, a: Action)
    requires Leads(from, Steps, s) && Enabled(s, a)
    ensures Leads(from, Steps, Next(s, a))
  {
    assert Steps(s, Next(s, a));
    LeadsOn(from, Steps, s, Next(s, a));
  }

  /** What the client does in the section, as the protocol has it: one query at most, made when
      the second look finds nothing, and the row stored unless the SET fails. */
  lemma SectionSteps(s: State, token: nat, refilled: bool, lookFault: bool, found: bool, setFault: bool) returns (t: State)
    requires At(s, token, LookingAgain)
    ensures Leads(s, Steps, t) && At(t, token, Releasing) && t.lock == s.lock
    ensures var hit := (s.cached || refilled) && !lookFault;
            && t.queried == (if hit then s.queried else s.queried + [token])
            && t.cached == (s.cached || refilled || (!hit && found && !setFault))
  {
    LeadsNowhere(s, Steps);
    t := s;
    if refilled {
      TakeStep(s, t, Refill);
      t := Next(t, Refill);
    }
    TakeStep(s, t, LookAgain(token, lookFault));
    t := Next(t, LookAgain(token, lookFault));
    if At(t, token, Querying) {
      TakeStep(s, t, Query(token, found));
      t := Next(t, Query(token, found));
      if found {
        TakeStep(s, t, Store(token, setFault));
        t := Next(t, Store(token, setFault));
      }
    }
  }

  /** `GetDetail` under the lock, in a system that stands at `s`. */
  method LoadInSection(service: VideoDetail.VideoService, row: Option<FeedTable.Video>, c: VideoDetail.Calls, token: nat, ghost s: State)
    returns (r: Option<FeedTable.Video>, ghost t: State)
    requires service.Coherent(row) && VideoDetail.Complete(c) && c.redis
    requires At(s, token, LookingAgain) && (s.cached <==> service.remote.Some?)
    modifies service
    ensures service.Coherent(row) && r == if r.Some? then row else None
    ensures Leads(s, Steps, t) && At(t, token, Releasing) && (t.cached <==> service.remote.Some?)
    ensures t.queried == s.queried + if service.queries == old(service.queries) then [] else [token]
  {
    r := service.LoadLocked(row, c);
    t := SectionSteps(s, token, c.underLock.refilled && row.Some?, c.underLock.fault, r.Some?, c.setFault);
    assert s.queried + [] == s.queried;
  }
}
