/** The sliding-window limiter: a Lua script over one sorted set of admitted requests, run
    atomically. Entries older than the window are pruned, and the key as a whole expires one
    window after the last admission. */
module SlidingWindow {
  import opened Collections
  import opened Zset
  import opened Wrappers

  /** `gone` says that the key expired before this request; Redis may be late to notice. */
  datatype Request = Request(now: int, member: Member, gone: bool)

  datatype Key = Key(entries: ZSet, expireAt: int)

  const NO_KEY := Key(map[], 0)

  /** `ZREMRANGEBYSCORE key -inf max`: the bound itself is removed too. */
  function ZRemRangeByScore(z: ZSet, max: int): ZSet { map m | m in z && z[m] > max :: z[m] }

  /** What is left to count after expiry and pruning. */
  function Seen(k: Key, window: nat, r: Request): ZSet
  {
    ZRemRangeByScore(if r.gone then map[] else k.entries, r.now - window)
  }

  predicate Admits(k: Key, window: nat, limit: int, r: Request) { |Seen(k, window, r)| < limit }

  function Step(k: Key, window: nat, limit: int, r: Request): Key
  {
    var entries := Seen(k, window, r);
    if Admits(k, window, limit, r) then Key(ZAdd(entries, r.member, r.now), r.now + window) else Key(entries, k.expireAt)
  }

  function After(window: nat, limit: int, reqs: seq<Request>): Key
  {
    if reqs == [] then NO_KEY else Step(After(window, limit, reqs[..|reqs| - 1]), window, limit, reqs[|reqs| - 1])
  }

  /** Everything admitted so far, with its time; nothing is ever forgotten here. */
  function Admissions(window: nat, limit: int, reqs: seq<Request>): ZSet
  {
    if reqs == [] then map[]
    else
      var before, r := reqs[..|reqs| - 1], reqs[|reqs| - 1];
      if Admits(After(window, limit, before), window, limit, r)
      then Admissions(window, limit, before)[r.member := r.now]
      else Admissions(window, limit, before)
  }

  /** Every request has its own member, and the key goes no earlier than its time to live. */
  predicate PossibleRun(window: nat, limit: int, reqs: seq<Request>)
  {
    reqs == [] ||
    var before, r := reqs[..|reqs| - 1], reqs[|reqs| - 1];
    && PossibleRun(window, limit, before)
    && (forall q :: q in before ==> q.member != r.member)
    && (r.gone ==> After(window, limit, before).expireAt <= r.now)
  }

  /** The clock does not run backwards. */
  predicate ClockOk(reqs: seq<Request>) { forall i, j :: 0 <= i < j < |reqs| ==> reqs[i].now <= reqs[j].now }

  predicate ValidRun(window: nat, limit: int, reqs: seq<Request>) { PossibleRun(window, limit, reqs) && ClockOk(reqs) }

  /** The admissions in the half-open interval (lo, hi]. */
  function Within(log: ZSet, lo: int, hi: int): set<Member> { set m | m in log && lo < log[m] <= hi }

  /** The key against the full record, when the latest request came at `now`. */
  ghost predicate Tracks(k: Key, log: ZSet, window: nat, now: int)
  {
    && Part(k.entries, log)
    && (forall m :: m in log && log[m] > now - window ==> m in k.entries)
    && (forall m :: m in log ==> log[m] <= now)
    && (forall m :: m in k.entries ==> k.entries[m] <= k.expireAt - window)
  }

  /** After pruning, the key holds exactly the admissions of the window. */
  lemma SeenIsWithin(k: Key, log: ZSet, window: nat, now: int, r: Request)
    requires Tracks(k, log, window, now) && now <= r.now && (r.gone ==> k.expireAt <= r.now)
    ensures Seen(k, window, r).Keys == Within(log, r.now - window, r.now)
    ensures forall m :: m in Seen(k, window, r) ==> Seen(k, window, r)[m] == log[m]
    ensures |Seen(k, window, r)| == |Within(log, r.now - window, r.now)|
  {
    assert Seen(k, window, r).Keys == Within(log, r.now - window, r.now);
  }

  lemma StepTracks(k: Key, log: ZSet, window: nat, limit: int, now: int, r: Request)
    requires Tracks(k, log, window, now) && now <= r.now && (r.gone ==> k.expireAt <= r.now) && r.member !in log
    ensures Tracks(Step(k, window, limit, r), if Admits(k, window, limit, r) then log[r.member := r.now] else log, window, r.now)
  {
    SeenIsWithin(k, log, window, now, r);
  }

  function LastTime(reqs: seq<Request>, start: int): int { if reqs == [] then start else reqs[|reqs| - 1].now }

  lemma {:induction false} RunTracks(window: nat, limit: int, reqs: seq<Request>, start: int)
    requires ValidRun(window, limit, reqs)
    ensures Tracks(After(window, limit, reqs), Admissions(window, limit, reqs), window, LastTime(reqs, start))
    ensures forall m :: m in Admissions(window, limit, reqs) ==> exists q :: q in reqs && q.member == m
    decreases |reqs|
  {
    if reqs != [] {
      var before, r := reqs[..|reqs| - 1], reqs[|reqs| - 1];
      RunTracks(window, limit, before, r.now);
      assert r.member !in Admissions(window, limit, before);
      StepTracks(After(window, limit, before), Admissions(window, limit, before), window, limit, LastTime(before, r.now), r);
      assert forall q :: q in before ==> q in reqs;
    }
  }

  /** The script is exact: a request is admitted if and only if fewer than `limit` earlier
      admissions lie in (now - window, now]. */
  lemma ScriptIsExact(window: nat, limit: int, reqs: seq<Request>, r: Request)
    requires ValidRun(window, limit, reqs + [r])
    ensures Admits(After(window, limit, reqs), window, limit, r) <==>
              |Within(Admissions(window, limit, reqs), r.now - window, r.now)| < limit
  {
    assert (reqs + [r])[..|reqs|] == reqs;
    RunTracks(window, limit, reqs, r.now);
    SeenIsWithin(After(window, limit, reqs), Admissions(window, limit, reqs), window, LastTime(reqs, r.now), r);
  }

  /** Expiry is never observed: whether or not Redis has dropped a key that is due, the same
      request is answered the same way and leaves the same key. */
  lemma ExpiryIsUnobservable(window: nat, limit: int, reqs: seq<Request>, r: Request)
    requires ValidRun(window, limit, reqs + [r]) && r.gone
    ensures Admits(After(window, limit, reqs), window, limit, r) == Admits(After(window, limit, reqs), window, limit, r.(gone := false))
    ensures Step(After(window, limit, reqs), window, limit, r) == Step(After(window, limit, reqs), window, limit, r.(gone := false))
  {
    assert (reqs + [r])[..|reqs|] == reqs;
    RunTracks(window, limit, reqs, r.now);
    var k := After(window, limit, reqs);
    assert Seen(k, window, r) == Seen(k, window, r.(gone := false));
  }

  /** A new member, no older than any other, finds room in its window. */
  ghost predicate Joins(log: ZSet, window: nat, limit: int, member: Member, now: int)
  {
    (forall m :: m in log ==> log[m] <= now) && member !in log && |Within(log, now - window, now)| < limit
  }

  lemma NewestWindow(log: ZSet, window: nat, limit: int, member: Member, now: int, t: int)
    requires Joins(log, window, limit, member, now)
    requires |Within(log, t - window, t)| <= limit
    ensures |Within(log[member := now], t - window, t)| <= limit
  {
    var log' := log[member := now];
    if t - window < now <= t {
      assert Within(log', t - window, t) == Within(log, t - window, t) + {member};
      SubsetSize(Within(log, t - window, t), Within(log, now - window, now));
    } else {
      assert Within(log', t - window, t) == Within(log, t - window, t);
    }
  }

  /** However the window is placed in time, it never holds more than `limit` admissions. */
  lemma {:induction false} NoWindowExceedsLimit(window: nat, limit: nat, reqs: seq<Request>, t: int)
    requires ValidRun(window, limit, reqs)
    ensures |Within(Admissions(window, limit, reqs), t - window, t)| <= limit
    decreases |reqs|
  {
    if reqs == [] {
      assert Within(map[], t - window, t) == {};
    } else {
      var before, r := reqs[..|reqs| - 1], reqs[|reqs| - 1];
      assert reqs == before + [r];
      NoWindowExceedsLimit(window, limit, before, t);
      OneMoreStaysWithin(window, limit, before, r, t);
    }
  }

  lemma NextIsFresh(window: nat, limit: int, reqs: seq<Request>, r: Request)
    requires ValidRun(window, limit, reqs + [r])
    ensures r.member !in Admissions(window, limit, reqs)
    ensures forall m :: m in Admissions(window, limit, reqs) ==> Admissions(window, limit, reqs)[m] <= r.now
  {
    assert (reqs + [r])[..|reqs|] == reqs;
    RunTracks(window, limit, reqs, r.now);
  }

  lemma OneMoreStaysWithin(window: nat, limit: nat, reqs: seq<Request>, r: Request, t: int)
    requires ValidRun(window, limit, reqs + [r])
    requires |Within(Admissions(window, limit, reqs), t - window, t)| <= limit
    ensures |Within(Admissions(window, limit, reqs + [r]), t - window, t)| <= limit
  {
    RunStep(window, limit, reqs, r);
    if Admits(After(window, limit, reqs), window, limit, r) { AdmissionStaysWithin(window, limit, reqs, r, t); }
  }

  lemma AdmissionJoins(window: nat, limit: nat, reqs: seq<Request>, r: Request)
    requires ValidRun(window, limit, reqs + [r]) && Admits(After(window, limit, reqs), window, limit, r)
    ensures Joins(Admissions(window, limit, reqs), window, limit, r.member, r.now)
  {
    NextIsFresh(window, limit, reqs, r);
    ScriptIsExact(window, limit, reqs, r);
  }

  lemma AdmissionStaysWithin(window: nat, limit: nat, reqs: seq<Request>, r: Request, t: int)
    requires ValidRun(window, limit, reqs + [r]) && Admits(After(window, limit, reqs), window, limit, r)
    requires |Within(Admissions(window, limit, reqs), t - window, t)| <= limit
    ensures |Within(Admissions(window, limit, reqs)[r.member := r.now], t - window, t)| <= limit
  {
    AdmissionJoins(window, limit, reqs, r);
    NewestWindow(Admissions(window, limit, reqs), window, limit, r.member, r.now, t);
  }

  lemma RunStep(window: nat, limit: int, reqs: seq<Request>, r: Request)
    ensures After(window, limit, reqs + [r]) == Step(After(window, limit, reqs), window, limit, r)
    ensures Admissions(window, limit, reqs + [r]) ==
              if Admits(After(window, limit, reqs), window, limit, r)
              then Admissions(window, limit, reqs)[r.member := r.now] else Admissions(window, limit, reqs)
  {
    assert (reqs + [r])[..|reqs|] == reqs;
  }

  // ---------- a clock that runs back ----------

  /** No run exceeds the limit in any window, whatever the clock does. */
  ghost predicate ClockIsIrrelevant(window: nat, limit: nat)
  {
    forall reqs, t :: PossibleRun(window, limit, reqs) ==> WithinLimit(Admissions(window, limit, reqs), window, limit, t)
  }

  /** At most `limit` admissions in the window that ends at `t`. */
  predicate WithinLimit(log: ZSet, window: nat, limit: nat, t: int) { |Within(log, t - window, t)| <= limit }

  /** With a limit of one the key holds the last admission until the next, which is therefore
      at least a window later. */
  ghost predicate Spaced(k: Key, log: ZSet, window: nat)
  {
    && (forall m, n :: m in log && n in log && m != n ==> log[m] >= log[n] + window || log[n] >= log[m] + window)
    && (log != map[] ==> exists last ::
          && last in log && k.entries == map[last := log[last]] && k.expireAt == log[last] + window
          && forall m :: m in log ==> log[m] <= log[last])
    && (log == map[] ==> k.entries == map[])
  }

  lemma StepKeepsSpaced(k: Key, log: ZSet, window: nat, r: Request)
    requires Spaced(k, log, window) && r.member !in log && (r.gone ==> k.expireAt <= r.now)
    ensures Spaced(Step(k, window, 1, r), if Admits(k, window, 1, r) then log[r.member := r.now] else log, window)
  {
    var seen := Seen(k, window, r);
    if log != map[] {
      var last :| && last in log && k.entries == map[last := log[last]] && k.expireAt == log[last] + window
                  && forall m :: m in log ==> log[m] <= log[last];
      if last in seen {
        assert seen == map[last := log[last]];
      } else {
        assert seen == map[];
        NewLast(k, log, window, r, last);
      }
    } else {
      assert seen == map[];
      NewLast(k, log, window, r, r.member);
    }
  }

  lemma NewLast(k: Key, log: ZSet, window: nat, r: Request, last: Member)
    requires Spaced(k, log, window) && r.member !in log && Seen(k, window, r) == map[]
    requires log != map[] ==> last in log && log[last] + window <= r.now && forall m :: m in log ==> log[m] <= log[last]
    ensures Spaced(Step(k, window, 1, r), log[r.member := r.now], window)
  {
    var log' := log[r.member := r.now];
    var k' := Step(k, window, 1, r);
    assert k' == Key(map[r.member := log'[r.member]], log'[r.member] + window);
    assert forall m :: m in log' ==> log'[m] <= log'[r.member];
  }

  lemma {:induction false} MembersAreRequests(window: nat, limit: int, reqs: seq<Request>)
    ensures forall m :: m in Admissions(window, limit, reqs) ==> exists q :: q in reqs && q.member == m
    decreases |reqs|
  {
    if reqs != [] {
      var before := reqs[..|reqs| - 1];
      MembersAreRequests(window, limit, before);
      assert forall q :: q in before ==> q in reqs;
      assert reqs[|reqs| - 1] in reqs;
    }
  }

  lemma {:induction false} RunKeepsSpaced(window: nat, reqs: seq<Request>)
    requires PossibleRun(window, 1, reqs)
    ensures Spaced(After(window, 1, reqs), Admissions(window, 1, reqs), window)
    decreases |reqs|
  {
    if reqs != [] {
      var before, r := reqs[..|reqs| - 1], reqs[|reqs| - 1];
      RunKeepsSpaced(window, before);
      MembersAreRequests(window, 1, before);
      StepKeepsSpaced(After(window, 1, before), Admissions(window, 1, before), window, r);
    }
  }

  lemma {:induction false} NothingAdmitted(window: nat, reqs: seq<Request>)
    ensures Admissions(window, 0, reqs) == map[]
    decreases |reqs|
  {
    if reqs != [] { NothingAdmitted(window, reqs[..|reqs| - 1]); }
  }

  lemma SpacedFitsOnce(k: Key, log: ZSet, window: nat, t: int)
    requires Spaced(k, log, window)
    ensures |Within(log, t - window, t)| <= 1
  {
    var inside := Within(log, t - window, t);
    if inside != {} {
      var m :| m in inside;
      assert forall n :: n in inside ==> n == m;
      assert inside == {m};
    }
  }

  /** Members 0, 1, 2, ... of a run. */
  function Name(i: nat): Member { seq(i, _ => 'a') }

  /** n requests at one moment. */
  function Filling(n: nat, start: int): seq<Request> { seq(n, i requires i >= 0 => Request(start, Name(i), false)) }

  /** The limit at `start`, one request when the window has passed, one stamped a millisecond
      before that. */
  function BackRun(window: nat, limit: nat, start: int): seq<Request>
  {
    Filling(limit, start) + [Request(start + window, Name(limit), false)] + [Request(start + window - 1, Name(limit + 1), false)]
  }

  lemma NamesDiffer(i: nat, j: nat)
    requires i != j
    ensures Name(i) != Name(j)
  {
    assert |Name(i)| == i && |Name(j)| == j;
  }

  /** The key and the record after n requests that all fit. */
  ghost predicate Filled(k: Key, log: ZSet, n: nat, start: int)
  {
    && k.entries == log && |log| == n
    && (forall m :: m in log ==> log[m] == start)
    && Named(log, n)
  }

  ghost predicate Named(log: ZSet, n: nat) { forall m :: m in log ==> exists i :: 0 <= i < n && m == Name(i) }

  lemma OneMoreRequest(window: nat, limit: int, reqs: seq<Request>, r: Request)
    requires PossibleRun(window, limit, reqs) && !r.gone && forall q :: q in reqs ==> q.member != r.member
    ensures PossibleRun(window, limit, reqs + [r])
  {
    assert (reqs + [r])[..|reqs|] == reqs;
  }

  lemma {:induction false} FillingFills(window: nat, limit: nat, n: nat, start: int)
    requires n <= limit && window >= 1
    ensures PossibleRun(window, limit, Filling(n, start))
    ensures Filled(After(window, limit, Filling(n, start)), Admissions(window, limit, Filling(n, start)), n, start)
    decreases n
  {
    if n > 0 {
      var before, r := Filling(n - 1, start), Request(start, Name(n - 1), false);
      FillingFills(window, limit, n - 1, start);
      assert Filling(n, start) == before + [r];
      FillingNames(n - 1, start, n - 1);
      OneMoreRequest(window, limit, before, r);
      RunStep(window, limit, before, r);
      FilledStep(window, limit, before, n, start);
    }
  }

  lemma FilledStep(window: nat, limit: nat, before: seq<Request>, n: nat, start: int)
    requires 1 <= n <= limit && window >= 1
    requires Filled(After(window, limit, before), Admissions(window, limit, before), n - 1, start)
    ensures var r := Request(start, Name(n - 1), false);
            && Admits(After(window, limit, before), window, limit, r)
            && Filled(Step(After(window, limit, before), window, limit, r), Admissions(window, limit, before)[r.member := r.now], n, start)
  {
    FilledMore(After(window, limit, before), Admissions(window, limit, before), window, limit, n, start, Request(start, Name(n - 1), false));
  }

  lemma NamedMore(log: ZSet, n: nat, now: int)
    requires n >= 1 && Named(log, n - 1)
    ensures Named(log[Name(n - 1) := now], n)
  {
  }

  lemma FilledMore(k: Key, log: ZSet, window: nat, limit: nat, n: nat, start: int, r: Request)
    requires 1 <= n <= limit && window >= 1 && r == Request(start, Name(n - 1), false) && Filled(k, log, n - 1, start)
    ensures Admits(k, window, limit, r) && Filled(Step(k, window, limit, r), log[r.member := r.now], n, start)
  {
    assert Seen(k, window, r) == log;
    NotAmongNames(log, n - 1, n - 1);
    assert log[r.member := r.now].Keys == log.Keys + {r.member};
    NamedMore(log, n, r.now);
  }

  /** The run is possible and puts limit + 1 admissions into one window. */
  lemma BackRunIsPossible(window: nat, limit: nat, start: int)
    requires limit >= 2 && window >= 1
    ensures PossibleRun(window, limit, BackRun(window, limit, start))
  {
    var filling := Filling(limit, start);
    var late, early := Request(start + window, Name(limit), false), Request(start + window - 1, Name(limit + 1), false);
    FillingFills(window, limit, limit, start);
    FillingNames(limit, start, limit);
    FillingNames(limit, start, limit + 1);
    OneMoreRequest(window, limit, filling, late);
    NamesDiffer(limit, limit + 1);
    OneMoreRequest(window, limit, filling + [late], early);
  }

  lemma BackRunExceeds(window: nat, limit: nat, start: int)
    requires limit >= 2 && window >= 1
    ensures PossibleRun(window, limit, BackRun(window, limit, start))
    ensures |Within(Admissions(window, limit, BackRun(window, limit, start)), start - 1, start + window - 1)| == limit + 1
  {
    var filling := Filling(limit, start);
    var late, early := Request(start + window, Name(limit), false), Request(start + window - 1, Name(limit + 1), false);
    BackRunIsPossible(window, limit, start);
    FillingFills(window, limit, limit, start);
    RunStep(window, limit, filling, late);
    RunStep(window, limit, filling + [late], early);
    BackSteps(After(window, limit, filling), Admissions(window, limit, filling), window, limit, start, late, early);
  }

  lemma FillingNames(n: nat, start: int, other: nat)
    requires other >= n
    ensures forall q :: q in Filling(n, start) ==> q.member != Name(other)
  {
    forall q | q in Filling(n, start) ensures q.member != Name(other) {
      var i :| 0 <= i < n && q == Filling(n, start)[i];
      NamesDiffer(i, other);
    }
  }

  lemma BackSteps(k: Key, log: ZSet, window: nat, limit: nat, start: int, late: Request, early: Request)
    requires Filled(k, log, limit, start) && limit >= 2 && window >= 1
    requires late == Request(start + window, Name(limit), false) && early == Request(start + window - 1, Name(limit + 1), false)
    ensures Admits(k, window, limit, late)
    ensures var k' := Step(k, window, limit, late);
            var log' := log[late.member := late.now];
            && Admits(k', window, limit, early)
            && |Within(log'[early.member := early.now], start - 1, start + window - 1)| == limit + 1
  {
    assert Seen(k, window, late) == map[];
    var k' := Step(k, window, limit, late);
    assert k'.entries == map[late.member := late.now];
    assert Seen(k', window, early) == map[late.member := late.now];
    NotAmongNames(log, limit, limit);
    NotAmongNames(log, limit, limit + 1);
    NamesDiffer(limit, limit + 1);
    var log'' := log[late.member := late.now][early.member := early.now];
    assert Within(log'', start - 1, start + window - 1) == log.Keys + {early.member};
  }

  lemma NotAmongNames(log: ZSet, n: nat, other: nat)
    requires other >= n && Named(log, n)
    ensures Name(other) !in log
  {
    forall i: nat | i < n ensures Name(i) != Name(other) { NamesDiffer(i, other); }
  }

  /** The limit survives every clock exactly when it is at most one or the window is empty. */
  lemma ClockMattersExactly(window: nat, limit: nat)
    ensures ClockIsIrrelevant(window, limit) <==> limit <= 1 || window == 0
  {
    if limit <= 1 || window == 0 {
      forall reqs, t | PossibleRun(window, limit, reqs)
        ensures WithinLimit(Admissions(window, limit, reqs), window, limit, t)
      {
        if window == 0 {
          assert Within(Admissions(window, limit, reqs), t - window, t) == {};
        } else if limit == 0 {
          NothingAdmitted(window, reqs);
          assert Within(map[], t - window, t) == {};
        } else {
          RunKeepsSpaced(window, reqs);
          SpacedFitsOnce(After(window, 1, reqs), Admissions(window, 1, reqs), window, t);
        }
      }
    } else {
      BackRunExceeds(window, limit, 0);
      var t := window - 1;
      assert !WithinLimit(Admissions(window, limit, BackRun(window, limit, 0)), window, limit, t);
    }
  }

  lemma SeenMembers(k: Key, window: nat, r: Request)
    ensures Seen(k, window, r).Keys == set m | m in k.entries && !r.gone && k.entries[m] > r.now - window
    ensures forall m :: m in Seen(k, window, r) ==> Seen(k, window, r)[m] == k.entries[m]
  {
  }

  // ---------- the limiter ----------

  class SlidingWindowLimiter {
    var key: Key
    /** Source of member suffixes. */
    var memberSeq: nat

    constructor ()
      ensures key == NO_KEY && memberSeq == 0
    {
      key, memberSeq := NO_KEY, 0;
    }

    /** The script, command by command; 0 admits and 1 rejects. */
    method RunScript(window: nat, limit: int, r: Request) returns (result: int)
      modifies this`key
      ensures key == Step(old(key), window, limit, r)
      // It admits while fewer than limit members of the window are left, and keeps those and, if
      // admitted, the new one, for another window.
      ensures var left := set m | m in old(key.entries) && !r.gone && old(key.entries)[m] > r.now - window;
              && result == (if |left| < limit then 0 else 1)
              && key.entries.Keys == (if result == 0 then left + {r.member} else left)
              && (forall m :: m in left && m != r.member ==> key.entries[m] == old(key.entries)[m])
              && (result == 0 ==> key.entries[r.member] == r.now && key.expireAt == r.now + window)
              && (result == 1 ==> key.expireAt == old(key.expireAt))
    {
      if r.gone {
        key := NO_KEY.(expireAt := key.expireAt);
      }
      key := key.(entries := ZRemRangeByScore(key.entries, r.now - window));
      var count := |key.entries|;
      if count < limit {
        key := key.(entries := ZAdd(key.entries, r.member, r.now));
        key := key.(expireAt := r.now + window);
        result := 0;
      } else {
        result := 1;
      }
      SeenMembers(old(key), window, r);
    }

    /** The middleware: requests pass unchecked when the limiter is not configured, has no
        subject, or cannot reach Redis; otherwise the script decides, unless its reply is lost,
        in which case the request passes even when the script has run. */
    method Handle(configured: bool, subjectOk: bool, redisUp: bool, script: Reply, window: nat, maxRequests: int, r: Request)
      returns (aborted: bool)
      modifies this
      ensures !(configured && maxRequests > 0 && subjectOk && redisUp) ==>
                !aborted && key == old(key) && memberSeq == old(memberSeq)
      ensures configured && maxRequests > 0 && subjectOk && redisUp ==>
                && memberSeq == (old(memberSeq) + 1) % 0x1_0000_0000_0000_0000
                && aborted == (script.Heard? && !Admits(old(key), window, maxRequests, r))
                && key == if script.Applied() then Step(old(key), window, maxRequests, r) else old(key)
    {
      if !configured || maxRequests <= 0 {
        return false;
      }
      if !subjectOk {
        return false;
      }
      if !redisUp {
        return false;
      }
      memberSeq := (memberSeq + 1) % 0x1_0000_0000_0000_0000;
      var result := 0;
      if script.Applied() {
        result := RunScript(window, maxRequests, r);
      }
      if !script.Heard? {
        return false;
      }
      aborted := result == 1;
    }
  }
}
