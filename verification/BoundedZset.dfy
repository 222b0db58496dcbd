/** "ZADD, then perhaps trim by rank": the write pattern shared by the global timeline
    (cap 1000), a follower's inbox (cap 500, trimmed now and then) and an author's outbox
    (cap 50). A history is any sequence of such commands in any order, with repetitions;
    a command that failed is simply not in the history. */
module BoundedZset {
  import opened Zset

  /** The cap of the global timeline. */
  const TIMELINE_CAP: nat := 1000

  datatype Command = Add(member: Member, score: int) | Trim

  function Exec(z: ZSet, cap: nat, c: Command): ZSet
  {
    match c
    case Add(m, score) => ZAdd(z, m, score)
    case Trim => ZRemRangeByRank(z, 0, -(cap + 1))
  }

  function ExecAll(z: ZSet, cap: nat, cmds: seq<Command>): ZSet
  {
    if cmds == [] then z
    else Exec(ExecAll(z, cap, cmds[..|cmds| - 1]), cap, cmds[|cmds| - 1])
  }

  /** The sorted set that no trim ever touched. */
  function Untrimmed(cmds: seq<Command>): ZSet
  {
    if cmds == [] then map[]
    else
      var z, c := Untrimmed(cmds[..|cmds| - 1]), cmds[|cmds| - 1];
      if c.Add? then ZAdd(z, c.member, c.score) else z
  }

  /** A video's score is its creation time, so every write of a member carries the same score. */
  predicate FixedScores(cmds: seq<Command>)
  {
    forall a, b :: a in cmds && b in cmds && a.Add? && b.Add? && a.member == b.member ==> a.score == b.score
  }

  lemma ExecAllAppend(z: ZSet, cap: nat, cmds: seq<Command>, c: Command)
    ensures ExecAll(z, cap, cmds + [c]) == Exec(ExecAll(z, cap, cmds), cap, c)
    ensures Untrimmed(cmds + [c]) == if c.Add? then ZAdd(Untrimmed(cmds), c.member, c.score) else Untrimmed(cmds)
  {
    assert (cmds + [c])[..|cmds|] == cmds;
  }

  lemma {:induction false} ExecAllConcat(z: ZSet, cap: nat, a: seq<Command>, b: seq<Command>)
    ensures ExecAll(z, cap, a + b) == ExecAll(ExecAll(z, cap, a), cap, b)
    decreases |b|
  {
    if b == [] {
      assert a + b == a;
    } else {
      assert (a + b)[..|a + b| - 1] == a + b[..|b| - 1];
      ExecAllConcat(z, cap, a, b[..|b| - 1]);
    }
  }

  /** With fixed scores, the untrimmed set holds exactly what was ever written. */
  lemma {:induction false} UntrimmedIsWhatWasAdded(cmds: seq<Command>)
    requires FixedScores(cmds)
    ensures forall m, s :: (m in Untrimmed(cmds) && Untrimmed(cmds)[m] == s) <==> Add(m, s) in cmds
    decreases |cmds|
  {
    if cmds != [] {
      var before, c := cmds[..|cmds| - 1], cmds[|cmds| - 1];
      assert cmds == before + [c];
      UntrimmedIsWhatWasAdded(before);
    }
  }

  /** Whatever the set holds, under whatever score, was written. */
  lemma {:induction false} StoredWasAdded(cmds: seq<Command>, cap: nat, m: Member)
    requires m in ExecAll(map[], cap, cmds)
    ensures Add(m, ExecAll(map[], cap, cmds)[m]) in cmds
    decreases |cmds|
  {
    var before, c := cmds[..|cmds| - 1], cmds[|cmds| - 1];
    assert cmds == before + [c];
    if !(c.Add? && c.member == m) { StoredWasAdded(before, cap, m); }
  }

  /** In every history, however its trims fell, the stored set keeps the newest `cap`
      members of everything written, and nothing that was not written. */
  lemma {:induction false} HistoryIsSandwiched(cmds: seq<Command>, cap: nat)
    requires FixedScores(cmds)
    ensures Part(TopK(Untrimmed(cmds), cap), ExecAll(map[], cap, cmds))
    ensures Part(ExecAll(map[], cap, cmds), Untrimmed(cmds))
    decreases |cmds|
  {
    if cmds != [] {
      var before, c := cmds[..|cmds| - 1], cmds[|cmds| - 1];
      assert cmds == before + [c];
      var z, all := ExecAll(map[], cap, before), Untrimmed(before);
      HistoryIsSandwiched(before, cap);
      match c
      case Add(m, s) =>
        UntrimmedIsWhatWasAdded(before);
        if m in all { assert Add(m, all[m]) in before; }
        TopKAfterAdd(z, all, cap, m, s);
      case Trim =>
        TrimKeepsTopK(z, cap);
        SandwichTopK(z, all, cap);
    }
  }

  /** Once a trim succeeds the stored set is exactly the newest `cap` members ever written. */
  lemma TrimRestoresTopK(cmds: seq<Command>, cap: nat)
    requires FixedScores(cmds) && cmds != [] && cmds[|cmds| - 1] == Trim
    ensures ExecAll(map[], cap, cmds) == TopK(Untrimmed(cmds), cap)
  {
    var before := cmds[..|cmds| - 1];
    HistoryIsSandwiched(before, cap);
    TrimKeepsTopK(ExecAll(map[], cap, before), cap);
    SandwichTopK(ExecAll(map[], cap, before), Untrimmed(before), cap);
  }

  /** Order, repetition and earlier trims do not matter: two histories that wrote the same
      entries and end with a trim leave the same sorted set. */
  lemma Confluence(a: seq<Command>, b: seq<Command>, cap: nat)
    requires FixedScores(a) && a != [] && a[|a| - 1] == Trim
    requires FixedScores(b) && b != [] && b[|b| - 1] == Trim
    requires forall m, s :: Add(m, s) in a <==> Add(m, s) in b
    ensures ExecAll(map[], cap, a) == ExecAll(map[], cap, b)
  {
    TrimRestoresTopK(a, cap);
    TrimRestoresTopK(b, cap);
    UntrimmedIsWhatWasAdded(a);
    UntrimmedIsWhatWasAdded(b);
    var ua, ub := Untrimmed(a), Untrimmed(b);
    forall m | m in ua ensures m in ub && ub[m] == ua[m] { assert Add(m, ua[m]) in a; }
    forall m | m in ub ensures m in ua { assert Add(m, ub[m]) in b; }
    assert ua == ub;
  }

  /** A reader of at most `cap` entries sees the never-trimmed set. */
  lemma ReadsAreUntrimmed(cmds: seq<Command>, cap: nat, n: nat)
    requires FixedScores(cmds) && 1 <= n <= cap
    ensures ZRevRange(ExecAll(map[], cap, cmds), 0, n - 1) == ZRevRange(Untrimmed(cmds), 0, n - 1)
    ensures forall m :: m in ZRevRange(Untrimmed(cmds), 0, n - 1) ==>
              m in ExecAll(map[], cap, cmds) && m in Untrimmed(cmds) && ExecAll(map[], cap, cmds)[m] == Untrimmed(cmds)[m]
  {
    HistoryIsSandwiched(cmds, cap);
    ReadsIgnoreTruncation(ExecAll(map[], cap, cmds), Untrimmed(cmds), cap, n);
  }
}
