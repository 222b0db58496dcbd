/** The token lock: SET key token NX with a time to live, and a compare-and-delete script.
    A lease is what a client that was told "locked" may rely on. */
module RedisLock {
  import opened Wrappers
  import opened Runs

  datatype Entry = Entry(token: nat, expireAt: int)

  /** SET key token NX PX ttl. */
  function SetNx(stored: Option<Entry>, token: nat, expireAt: int): Option<Entry>
  {
    if stored.None? then Some(Entry(token, expireAt)) else stored
  }

  /** GET, and DEL only when the value is the caller's token. */
  function CompareAndDelete(stored: Option<Entry>, token: nat): Option<Entry>
  {
    if stored.Some? && stored.value.token == token then None else stored
  }

  datatype State = State(
    now: int,
    stored: Option<Entry>,
    leases: map<nat, int>,      // token of every lease granted and not given up, with its end
    issued: set<nat>)           // tokens ever drawn

  datatype Action =
    | Tick(to: int)
    | Expire
    | Lock(token: nat, ttl: nat, reply: Reply)
    | UnLock(token: nat, reached: bool)

  function Init(now: int): State { State(now, None, map[], {}) }

  predicate Enabled(s: State, a: Action)
  {
    match a
    case Tick(to) => s.now <= to
    case Expire => s.stored.Some? && s.stored.value.expireAt <= s.now
    case Lock(token, _, _) => token !in s.issued
    case UnLock(token, _) => token in s.issued
  }

  function Next(s: State, a: Action): State
  {
    match a
    case Tick(to) => s.(now := to)
    case Expire => s.(stored := None)
    case Lock(token, ttl, reply) =>
      var granted := s.stored.None? && reply.Heard?;
      s.(issued := s.issued + {token}, stored := if reply.Applied() then SetNx(s.stored, token, s.now + ttl) else s.stored,
         leases := if granted then s.leases[token := s.now + ttl] else s.leases)
    case UnLock(token, reached) =>
      s.(leases := s.leases - {token}, stored := if reached then CompareAndDelete(s.stored, token) else s.stored)
  }

  /** The client with this token may still rely on its lock. */
  predicate Holds(s: State, token: nat) { token in s.leases && s.now < s.leases[token] }

  ghost predicate Inv(s: State)
  {
    && (forall t :: t in s.leases ==> t in s.issued)
    && (forall t :: Holds(s, t) ==> s.stored == Some(Entry(t, s.leases[t])))
    && (s.stored.Some? ==> s.stored.value.token in s.issued)
  }

  lemma NextKeepsInv(s: State, a: Action)
    requires Inv(s) && Enabled(s, a)
    ensures Inv(Next(s, a))
  {
    var s' := Next(s, a);
    forall t | Holds(s', t) ensures s'.stored == Some(Entry(t, s'.leases[t])) {
      if t in s.leases && s.now < s.leases[t] { assert Holds(s, t); }
    }
  }

  /** A client that draws a new token comes to hold the lock exactly when the key is free and it
      hears so. */
  lemma GrantExactly(s: State, token: nat, ttl: nat, reply: Reply)
    requires Inv(s) && Enabled(s, Lock(token, ttl, reply)) && ttl > 0
    ensures Holds(Next(s, Lock(token, ttl, reply)), token) <==> s.stored.None? && reply.Heard?
  {
  }

  /** A lease that has run out stands in nobody's way: when Redis drops the key, the next client
      is granted the lock. */
  lemma LapsedLockIsGranted(s: State, token: nat, ttl: nat)
    requires Inv(s) && s.stored.Some? && s.stored.value.expireAt <= s.now && token !in s.issued && ttl > 0
    ensures Enabled(s, Expire) && Enabled(Next(s, Expire), Lock(token, ttl, Heard))
    ensures Holds(Next(Next(s, Expire), Lock(token, ttl, Heard)), token)
  {
  }

  ghost predicate Steps(s: State, t: State) { exists a :: Enabled(s, a) && Next(s, a) == t }

  lemma StepsKeepInv(s: State, t: State)
    requires Inv(s) && Steps(s, t)
    ensures Inv(t)
  {
    var a :| Enabled(s, a) && Next(s, a) == t;
    NextKeepsInv(s, a);
  }

  ghost predicate IsHistory(run: seq<State>) { IsRun(run, Steps) && run[0] == Init(run[0].now) }

  lemma HistoryKeepsInv(run: seq<State>, i: nat)
    requires IsHistory(run) && i < |run|
    ensures Inv(run[i])
  {
    forall s, t | Inv(s) && Steps(s, t) ensures Inv(t) { StepsKeepInv(s, t); }
    Invariant(run, Steps, Inv, i);
  }

  /** At most one client holds an unexpired lease, at every point of every run. */
  lemma AtMostOneHolder(run: seq<State>, i: nat, t1: nat, t2: nat)
    requires IsHistory(run) && i < |run| && Holds(run[i], t1) && Holds(run[i], t2)
    ensures t1 == t2
  {
    HistoryKeepsInv(run, i);
  }

  /** An unlock by anyone else, in particular by a client whose own lease ran out, leaves the
      holder's lock in place. */
  lemma LateUnlockIsHarmless(run: seq<State>, i: nat, late: nat, holder: nat, reached: bool)
    requires IsHistory(run) && i < |run| && Holds(run[i], holder) && late != holder
    ensures Next(run[i], UnLock(late, reached)).stored == run[i].stored
    ensures run[i].stored.Some? && run[i].stored.value.token == holder
    ensures Holds(Next(run[i], UnLock(late, reached)), holder)
  {
    HistoryKeepsInv(run, i);
  }

  /** Nothing but its own unlock or the end of its lease takes the lock from a holder. */
  lemma {:induction false} HolderIsUndisturbed(run: seq<State>, i: nat, j: nat, holder: nat)
    requires IsHistory(run) && i <= j < |run| && Holds(run[i], holder)
    requires forall k :: i <= k <= j ==> holder in run[k].leases && run[k].now < run[i].leases[holder]
    ensures run[j].leases[holder] == run[i].leases[holder] && run[j].stored == run[i].stored
  {
    if i < j {
      HolderIsUndisturbed(run, i, j - 1, holder);
      HistoryKeepsInv(run, j - 1);
      HistoryKeepsInv(run, j);
      LeaseStays(run[j - 1], run[j], holder);
    }
  }

  lemma LeaseStays(s: State, t: State, holder: nat)
    requires Inv(s) && Inv(t) && Steps(s, t) && Holds(s, holder) && holder in t.leases && t.now < s.leases[holder]
    ensures t.leases[holder] == s.leases[holder] && t.stored == s.stored
  {
    var a :| Enabled(s, a) && Next(s, a) == t;
  }

  // ---------- the client ----------

  /** What became of a client's key meanwhile: nothing, or its lease ran out and since then the
      key is empty or another client's. */
  datatype Meanwhile = Kept | RanOut(now: Option<Entry>)

  class LockKey {
    var stored: Option<Entry>

    constructor ()
      ensures stored == None
    {
      stored := None;
    }

    method Lock(token: nat, now: int, ttl: nat, reply: Reply) returns (ok: bool, err: bool)
      modifies this
      ensures err == !reply.Heard? && ok == (reply.Heard? && old(stored).None?)
      ensures stored == if reply.Applied() && old(stored).None? then Some(Entry(token, now + ttl)) else old(stored)
      // The step of the protocol, with the lease that goes with it.
      ensures forall s: State :: s.stored == old(stored) && s.now == now ==>
                var t := Next(s, Action.Lock(token, ttl, reply));
                t.stored == stored && t.leases == if ok then s.leases[token := now + ttl] else s.leases
    {
      ok := stored.None?;
      if reply.Applied() && ok {
        stored := Some(Entry(token, now + ttl));
      }
      if !reply.Heard? {
        return false, true;
      }
      err := false;
    }

    /** Time and other clients go on. */
    method Elapse(m: Meanwhile)
      modifies this
      ensures stored == if m.Kept? then old(stored) else m.now
    {
      if m.RanOut? {
        stored := m.now;
      }
    }

    method UnLock(token: nat, reached: bool) returns (err: bool)
      modifies this
      ensures err == !reached
      ensures stored == if reached && old(stored).Some? && old(stored).value.token == token then None else old(stored)
      ensures forall s: State :: s.stored == old(stored) ==> Next(s, Action.UnLock(token, reached)).stored == stored
    {
      if reached && stored.Some? && stored.value.token == token {
        stored := None;
      }
      err := !reached;
    }
  }
}
