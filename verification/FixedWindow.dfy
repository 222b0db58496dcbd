/** The fixed-window limiter: INCR a counter whose time to live is set by the first increment
    of its life. */
module FixedWindow {
  import opened Wrappers

  /** `gone` says that the counter expired before this request. */
  datatype Request = Request(now: int, gone: bool)

  /** A missing key has count 0. */
  datatype Counter = Counter(count: nat, expireAt: int)

  const NO_KEY := Counter(0, 0)

  function Incremented(k: Counter, window: nat, r: Request): Counter
  {
    var count := (if r.gone then 0 else k.count) + 1;
    if count == 1 then Counter(1, r.now + window) else Counter(count, k.expireAt)
  }

  function After(window: nat, reqs: seq<Request>): Counter
  {
    if reqs == [] then NO_KEY else Incremented(After(window, reqs[..|reqs| - 1]), window, reqs[|reqs| - 1])
  }

  /** The clock does not run backwards and a counter goes no earlier than its time to live. */
  predicate ValidRun(window: nat, reqs: seq<Request>)
  {
    reqs == [] ||
    var before, r := reqs[..|reqs| - 1], reqs[|reqs| - 1];
    && ValidRun(window, before)
    && (forall q :: q in before ==> q.now <= r.now)
    && (r.gone ==> After(window, before).count > 0 && After(window, before).expireAt <= r.now)
  }

  /** How many requests were admitted at a time in [lo, hi). */
  function Admitted(window: nat, limit: nat, reqs: seq<Request>, lo: int, hi: int): nat
  {
    if reqs == [] then 0
    else
      Admitted(window, limit, reqs[..|reqs| - 1], lo, hi) +
      if After(window, reqs).count <= limit && lo <= reqs[|reqs| - 1].now < hi then 1 else 0
  }

  /** The life of the counter that the last request belongs to. */
  function Life(window: nat, reqs: seq<Request>): nat
  {
    if reqs == [] then 0
    else Life(window, reqs[..|reqs| - 1]) + if After(window, reqs).count == 1 then 1 else 0
  }

  function AdmittedInLife(window: nat, limit: nat, reqs: seq<Request>, life: nat): nat
  {
    if reqs == [] then 0
    else
      AdmittedInLife(window, limit, reqs[..|reqs| - 1], life) +
      if After(window, reqs).count <= limit && Life(window, reqs) == life then 1 else 0
  }

  function Min(a: int, b: int): int { if a <= b then a else b }

  // ---------- one life ----------

  /** No life admits more than the limit; the current one has admitted all its requests up
      to the limit, and later ones have none yet. */
  lemma {:induction false} EachLifeIsLimited(window: nat, limit: nat, reqs: seq<Request>, life: nat)
    ensures AdmittedInLife(window, limit, reqs, life) <= limit
    ensures life == Life(window, reqs) ==> AdmittedInLife(window, limit, reqs, life) == Min(After(window, reqs).count, limit)
    ensures life > Life(window, reqs) ==> AdmittedInLife(window, limit, reqs, life) == 0
    decreases |reqs|
  {
    if reqs != [] {
      EachLifeIsLimited(window, limit, reqs[..|reqs| - 1], life);
    }
  }

  /** The time to live is set by the first increment of a life and by no other: until the
      counter goes, it is due one window after that first request. */
  lemma {:induction false} ExpiryIsFixed(window: nat, reqs: seq<Request>, more: seq<Request>)
    requires After(window, reqs).count > 0 && forall r :: r in more ==> !r.gone
    ensures After(window, reqs + more).count == After(window, reqs).count + |more|
    ensures After(window, reqs + more).expireAt == After(window, reqs).expireAt
    decreases |more|
  {
    if more == [] {
      assert reqs + more == reqs;
    } else {
      assert (reqs + more)[..|reqs + more| - 1] == reqs + more[..|more| - 1];
      ExpiryIsFixed(window, reqs, more[..|more| - 1]);
    }
  }

  // ---------- any interval ----------

  /** Admissions n of the interval [lo, lo + window) so far, by where the current life began. */
  ghost predicate Bounded(k: Counter, window: nat, limit: nat, lo: int, n: nat)
  {
    var start := k.expireAt - window;
    if k.count == 0 then n == 0
    else if start < lo then n <= Min(k.count, limit) - 1
    else if start < lo + window then n <= limit - 1 + Min(k.count, limit)
    else n <= 2 * limit - 1
  }

  lemma BoundedStep(k: Counter, window: nat, limit: nat, lo: int, n: nat, r: Request)
    requires limit >= 1 && Bounded(k, window, limit, lo, n)
    requires r.now < lo ==> n == 0
    requires k.count > 0 ==> k.expireAt - window <= r.now
    requires r.gone ==> k.count > 0 && k.expireAt <= r.now
    ensures var k' := Incremented(k, window, r);
            Bounded(k', window, limit, lo, n + if k'.count <= limit && lo <= r.now < lo + window then 1 else 0)
  {
  }

  lemma {:induction false} NothingBefore(window: nat, limit: nat, reqs: seq<Request>, lo: int, hi: int)
    requires forall r :: r in reqs ==> r.now < lo
    ensures Admitted(window, limit, reqs, lo, hi) == 0
    decreases |reqs|
  {
    if reqs != [] {
      assert reqs[|reqs| - 1] in reqs;
      NothingBefore(window, limit, reqs[..|reqs| - 1], lo, hi);
    }
  }

  lemma {:induction false} LifeHasBegun(window: nat, reqs: seq<Request>, now: int)
    requires forall r :: r in reqs ==> r.now <= now
    ensures After(window, reqs).count > 0 ==> After(window, reqs).expireAt - window <= now
    decreases |reqs|
  {
    if reqs != [] {
      assert reqs[|reqs| - 1] in reqs;
      LifeHasBegun(window, reqs[..|reqs| - 1], now);
    }
  }

  lemma {:induction false} RunIsBounded(window: nat, limit: nat, reqs: seq<Request>, lo: int)
    requires ValidRun(window, reqs) && limit >= 1
    ensures Bounded(After(window, reqs), window, limit, lo, Admitted(window, limit, reqs, lo, lo + window))
    decreases |reqs|
  {
    if reqs != [] {
      var before, r := reqs[..|reqs| - 1], reqs[|reqs| - 1];
      RunIsBounded(window, limit, before, lo);
      LifeHasBegun(window, before, r.now);
      if r.now < lo { NothingBefore(window, limit, before, lo, lo + window); }
      BoundedStep(After(window, before), window, limit, lo, Admitted(window, limit, before, lo, lo + window), r);
    }
  }

  /** No interval of one window's length admits more than 2 * limit - 1 requests: two lives
      can meet in it, but then the first request of the earlier one lies outside. */
  lemma AnyIntervalIsLimited(window: nat, limit: nat, reqs: seq<Request>, lo: int)
    requires ValidRun(window, reqs) && limit >= 1
    ensures Admitted(window, limit, reqs, lo, lo + window) <= 2 * limit - 1
  {
    RunIsBounded(window, limit, reqs, lo);
  }

  // ---------- the bound is met ----------

  function Repeat(r: Request, n: nat): seq<Request> { seq(n, _ => r) }

  /** One request opens a life; the rest of its quota comes just before it ends, and the whole
      quota of the next life just after. */
  function Burst(window: nat, limit: nat, start: int): seq<Request>
    requires limit >= 1
  {
    FirstBurst(window, limit, start) + [Request(start + window, true)] + Repeat(Request(start + window, false), limit - 1)
  }

  lemma {:induction false} RepeatAdmits(window: nat, limit: nat, reqs: seq<Request>, r: Request, n: nat, lo: int, hi: int)
    requires ValidRun(window, reqs) && (forall q :: q in reqs ==> q.now <= r.now) && !r.gone && lo <= r.now < hi
    requires 1 <= After(window, reqs).count && After(window, reqs).count + n <= limit
    ensures ValidRun(window, reqs + Repeat(r, n))
    ensures After(window, reqs + Repeat(r, n)) == Counter(After(window, reqs).count + n, After(window, reqs).expireAt)
    ensures Admitted(window, limit, reqs + Repeat(r, n), lo, hi) == Admitted(window, limit, reqs, lo, hi) + n
    decreases n
  {
    if n == 0 {
      assert reqs + Repeat(r, n) == reqs;
    } else {
      var shorter := reqs + Repeat(r, n - 1);
      RepeatAdmits(window, limit, reqs, r, n - 1, lo, hi);
      assert reqs + Repeat(r, n) == shorter + [r];
      SameLife(window, limit, shorter, r, lo, hi);
    }
  }

  /** A later request of the same life, within the quota. */
  lemma SameLife(window: nat, limit: nat, reqs: seq<Request>, r: Request, lo: int, hi: int)
    requires ValidRun(window, reqs) && (forall q :: q in reqs ==> q.now <= r.now) && !r.gone && lo <= r.now < hi
    requires 1 <= After(window, reqs).count < limit
    ensures ValidRun(window, reqs + [r])
    ensures After(window, reqs + [r]) == Counter(After(window, reqs).count + 1, After(window, reqs).expireAt)
    ensures Admitted(window, limit, reqs + [r], lo, hi) == Admitted(window, limit, reqs, lo, hi) + 1
  {
    OneMore(window, limit, reqs, r, lo, hi);
  }

  lemma OneMore(window: nat, limit: nat, reqs: seq<Request>, r: Request, lo: int, hi: int)
    requires ValidRun(window, reqs) && forall q :: q in reqs ==> q.now <= r.now
    requires r.gone ==> After(window, reqs).count > 0 && After(window, reqs).expireAt <= r.now
    ensures ValidRun(window, reqs + [r])
    ensures After(window, reqs + [r]) == Incremented(After(window, reqs), window, r)
    ensures Admitted(window, limit, reqs + [r], lo, hi) == Admitted(window, limit, reqs, lo, hi) +
              if Incremented(After(window, reqs), window, r).count <= limit && lo <= r.now < hi then 1 else 0
  {
    assert (reqs + [r])[..|reqs|] == reqs;
  }

  /** The bound is sharp for every limit and every window of at least two milliseconds. */
  lemma BoundIsSharp(window: nat, limit: nat, start: int)
    requires limit >= 1 && window >= 2
    ensures ValidRun(window, Burst(window, limit, start))
    ensures Admitted(window, limit, Burst(window, limit, start), start + window - 1, start + window - 1 + window) == 2 * limit - 1
  {
    var lo, hi := start + window - 1, start + window - 1 + window;
    FirstLife(window, limit, start);
    NextLife(window, limit, FirstBurst(window, limit, start), start + window, lo, hi);
  }

  /** A counter that is due may go, and then the whole quota is admitted at once. */
  lemma NextLife(window: nat, limit: nat, early: seq<Request>, now: int, lo: int, hi: int)
    requires ValidRun(window, early) && (forall q :: q in early ==> q.now <= now) && limit >= 1 && lo <= now < hi
    requires After(window, early).count > 0 && After(window, early).expireAt <= now
    ensures var reqs := early + [Request(now, true)] + Repeat(Request(now, false), limit - 1);
            ValidRun(window, reqs) && Admitted(window, limit, reqs, lo, hi) == Admitted(window, limit, early, lo, hi) + limit
  {
    OneMore(window, limit, early, Request(now, true), lo, hi);
    RepeatAdmits(window, limit, early + [Request(now, true)], Request(now, false), limit - 1, lo, hi);
  }

  function FirstBurst(window: nat, limit: nat, start: int): seq<Request>
    requires limit >= 1
  {
    [Request(start, false)] + Repeat(Request(start + window - 1, false), limit - 1)
  }

  lemma FirstLife(window: nat, limit: nat, start: int)
    requires limit >= 1 && window >= 2
    ensures ValidRun(window, FirstBurst(window, limit, start)) && After(window, FirstBurst(window, limit, start)) == Counter(limit, start + window)
    ensures Admitted(window, limit, FirstBurst(window, limit, start), start + window - 1, start + window - 1 + window) == limit - 1
  {
    FirstRequest(window, limit, start);
    RepeatAdmits(window, limit, [Request(start, false)], Request(start + window - 1, false), limit - 1, start + window - 1, start + window - 1 + window);
  }

  lemma FirstRequest(window: nat, limit: nat, start: int)
    requires window >= 2
    ensures ValidRun(window, [Request(start, false)]) && After(window, [Request(start, false)]) == Counter(1, start + window)
    ensures Admitted(window, limit, [Request(start, false)], start + window - 1, start + window - 1 + window) == 0
  {
    var r := Request(start, false);
    assert [r][..0] == [];
    assert After(window, [r]) == Incremented(NO_KEY, window, r);
  }

  // ---------- the limiter ----------

  class FixedWindowLimiter {
    var key: Counter

    constructor ()
      ensures key == NO_KEY
    {
      key := NO_KEY;
    }

    /** INCR, and PEXPIRE when the result is 1, in one script. */
    method IncrementWithExpire(window: nat, r: Request) returns (count: nat)
      modifies this
      ensures key == Incremented(old(key), window, r) && count == key.count
    {
      if r.gone {
        key := NO_KEY;
      }
      key := key.(count := key.count + 1);
      count := key.count;
      if count == 1 {
        key := key.(expireAt := r.now + window);
      }
    }

    /** Requests pass unchecked when the limiter is not configured, has no subject, or the
        script's reply is lost, which may have counted them all the same; without a Redis
        connection the count reads as 0. */
    method Limit(configured: bool, subjectOk: bool, connected: bool, script: Reply, window: nat, maxRequests: int, r: Request)
      returns (aborted: bool)
      modifies this
      ensures configured && maxRequests > 0 && subjectOk && connected && script.Applied() ==>
                key == Incremented(old(key), window, r) && aborted == (script.Heard? && key.count > maxRequests)
      ensures !(configured && maxRequests > 0 && subjectOk && connected && script.Applied()) ==> !aborted && key == old(key)
    {
      if !configured || maxRequests <= 0 {
        return false;
      }
      if !subjectOk {
        return false;
      }
      var count := 0;
      if connected {
        if script.Applied() {
          count := IncrementWithExpire(window, r);
        }
        if !script.Heard? {
          return false;
        }
      }
      aborted := count > maxRequests;
    }
  }
}
