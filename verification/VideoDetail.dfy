/** `GetDetail`: one video through a local cache, Redis and the database, where a miss in
    Redis is loaded by whoever gets the lock while the others wait for the refill. */
module VideoDetail {
  import opened Wrappers
  import opened FeedTable
  import opened RedisLock

  const ATTEMPTS: nat := 5
  const LOCK_TTL: nat := 2000

  datatype CacheRead = Hit(video: Video) | Miss | ReadError

  /** How one read of Redis goes: another client may have stored the row just before it, and
      the read itself may fail. */
  datatype Attempt = Attempt(refilled: bool, fault: bool)

  /** How the calls of one request go. */
  datatype Calls = Calls(
    redis: bool,                 // is there a Redis client
    first: Attempt,
    underLock: Attempt,
    waiting: seq<Attempt>,
    lock: Reply,
    setFault: bool,
    dbFault: bool,
    cancelledAt: nat,            // the wait during which the request is cancelled, if below ATTEMPTS
    unlockReached: bool)

  predicate Complete(c: Calls) { |c.waiting| == ATTEMPTS }

  /** Cached entries agree with the row. */
  predicate Agrees(cached: Option<Video>, row: Option<Video>) { cached.Some? ==> cached == row }

  class VideoService {
    const lockKey: LockKey
    var local: Option<Video>
    var remote: Option<Video>
    var queries: nat

    constructor (lockKey: LockKey)
      ensures this.lockKey == lockKey && local == None && remote == None && queries == 0
    {
      this.lockKey, local, remote, queries := lockKey, None, None, 0;
    }

    predicate Coherent(row: Option<Video>)
      reads this
    {
      Agrees(local, row) && Agrees(remote, row)
    }

    /** A read of Redis, after other clients may have refilled it. */
    method GetCache(row: Option<Video>, a: Attempt) returns (r: CacheRead)
      requires Coherent(row)
      modifies this`remote
      ensures Coherent(row) && remote == if a.refilled && row.Some? then row else old(remote)
      ensures r == if a.fault then ReadError else if remote.Some? then Hit(remote.value) else Miss
    {
      if a.refilled && row.Some? {
        remote := row;
      }
      if a.fault {
        return ReadError;
      }
      r := if remote.Some? then Hit(remote.value) else Miss;
    }

    /** Load the row and fill both caches; a failed SET is only logged. */
    method LoadFromDB(row: Option<Video>, c: Calls) returns (r: Option<Video>)
      requires Coherent(row)
      modifies this
      ensures Coherent(row) && queries == old(queries) + 1
      ensures remote == if r.Some? && c.redis && !c.setFault then row else old(remote)
      ensures r == if c.dbFault then None else row
      ensures r.Some? ==> local == row
    {
      queries := queries + 1;
      if c.dbFault || row.None? {
        return None;
      }
      if c.redis && !c.setFault {
        remote := row;
      }
      local := row;
      r := row;
    }

    /** The lock holder reads Redis once more before it queries. */
    method LoadLocked(row: Option<Video>, c: Calls) returns (r: Option<Video>)
      requires Coherent(row) && Complete(c)
      modifies this
      ensures Coherent(row) && (r.Some? ==> r == row && local == row)
      ensures r.None? ==> c.dbFault || row.None?
      // One query, made exactly when the second look fails or finds nothing, and then the row is
      // in Redis again unless the SET fails.
      ensures var there := old(remote).Some? || (c.underLock.refilled && row.Some?);
              && queries == old(queries) + (if there && !c.underLock.fault then 0 else 1)
              && remote == if there || (r.Some? && c.redis && !c.setFault) then row else None
    {
      var again := GetCache(row, c.underLock);
      if again.Hit? {
        local := Some(again.video);
        return Some(again.video);
      }
      r := LoadFromDB(row, c);
    }

    /** Wait for the holder's refill, at most five times, unless the request is cancelled. */
    method WaitForRefill(row: Option<Video>, c: Calls) returns (r: Option<Video>, cancelled: bool)
      requires Coherent(row) && Complete(c) && remote.None?
      modifies this`local, this`remote
      ensures Coherent(row) && (r.Some? ==> r == row && local == row)
      ensures r.Some? <==> RefillSeen(row, c)
      ensures cancelled <==> !RefillSeen(row, c) && c.cancelledAt < ATTEMPTS
    {
      r, cancelled := None, false;
      for i := 0 to ATTEMPTS
        invariant Coherent(row) && r.None? && !cancelled && i <= c.cancelledAt
        invariant remote == if exists j :: 0 <= j < i && row.Some? && c.waiting[j].refilled then row else None
        invariant forall j, k :: 0 <= j <= k < i && row.Some? && c.waiting[j].refilled ==> c.waiting[k].fault
      {
        if c.cancelledAt == i {
          return None, true;
        }
        var read := GetCache(row, c.waiting[i]);
        if read.Hit? {
          local := Some(read.video);
          return Some(read.video), false;
        }
      }
    }

    /** The answer is the row; caches stay coherent; a lock held elsewhere never makes the
        request fail. A lock taken here is given back, and when its lease ran out during the
        load, whoever holds the lock by then keeps it. */
    method GetDetail(row: Option<Video>, c: Calls, token: nat, now: int, load: Meanwhile) returns (r: Option<Video>)
      requires Coherent(row) && Complete(c)
      requires lockKey.stored.Some? ==> lockKey.stored.value.token != token
      requires load.RanOut? && load.now.Some? ==> load.now.value.token != token
      modifies this, lockKey
      ensures Coherent(row) && (r.Some? ==> r == row && local == row)
      ensures r.None? ==> c.dbFault || row.None? || c.cancelledAt < ATTEMPTS
      ensures queries <= old(queries) + 1
      ensures queries > old(queries) && r.Some? && c.redis && !c.setFault ==> remote == row
      // A client that misses and does not get the lock queries only when no refill shows up in
      // five waits, and not at all when it is cancelled in one of them.
      ensures MissesFirst(old(local), old(remote), row, c) && !(c.lock.Heard? && old(lockKey.stored).None?) ==>
                && queries == old(queries) + (if RefillSeen(row, c) || c.cancelledAt < 5 then 0 else 1)
                && (RefillSeen(row, c) ==> r == row)
      // One that gets it queries when the second look fails or finds nothing.
      ensures MissesFirst(old(local), old(remote), row, c) && c.lock.Heard? && old(lockKey.stored).None? ==>
                queries == old(queries) + if row.Some? && c.underLock.refilled && !c.underLock.fault then 0 else 1
      // Without Redis, or when the first read fails, it goes to the database at once.
      ensures old(local).None? && (!c.redis || c.first.fault) ==> queries == old(queries) + 1
      ensures old(local).Some? ==> queries == old(queries) && lockKey.stored == old(lockKey.stored)
      ensures old(lockKey.stored).Some? ==> lockKey.stored == old(lockKey.stored)
      ensures var locked := TakesLock(old(local), old(remote), row, c) && old(lockKey.stored).None?;
              && (locked && load.RanOut? ==> lockKey.stored == load.now)
              && (!locked && c.lock.Heard? ==> lockKey.stored == old(lockKey.stored))
              && (locked && load.Kept? && c.unlockReached ==> lockKey.stored == None)
    {
      if local.Some? {
        return local;
      }
      if c.redis {
        var first := GetCache(row, c.first);
        if first.Hit? {
          local := Some(first.video);
          return Some(first.video);
        }
        if first.Miss? {
          var ok, err := lockKey.Lock(token, now, LOCK_TTL, c.lock);
          if !err && ok {
            r := LoadLocked(row, c);
            lockKey.Elapse(load);
            var _ := lockKey.UnLock(token, c.unlockReached);
            return;
          }
          var cancelled;
          r, cancelled := WaitForRefill(row, c);
          if cancelled || r.Some? {
            return;
          }
        }
      }
      r := LoadFromDB(row, c);
    }
  }

  /** A miss in both caches. */
  predicate MissesFirst(local: Option<Video>, remote: Option<Video>, row: Option<Video>, c: Calls)
  {
    local.None? && c.redis && !c.first.fault && remote.None? && !(c.first.refilled && row.Some?)
  }

  /** And a Lock call that is answered. */
  predicate TakesLock(local: Option<Video>, remote: Option<Video>, row: Option<Video>, c: Calls)
  {
    MissesFirst(local, remote, row, c) && c.lock.Heard?
  }

  /** One of the waits, before the request is cancelled, reads the row somebody has stored. */
  ghost predicate RefillSeen(row: Option<Video>, c: Calls)
    requires Complete(c)
  {
    row.Some? && exists i, j :: 0 <= i <= j < 5 && j < c.cancelledAt && c.waiting[i].refilled && !c.waiting[j].fault
  }
}
