/** Redis sorted sets as this system uses them: `ZADD`, `ZREMRANGEBYRANK`, `ZREVRANGE`,
    `ZREVRANGEBYSCORE` and the lowest-ranked entry. Members are ordered by score, then by
    member text, exactly as Redis orders them. Scores are millisecond timestamps. */
module Zset {
  import opened Collections

  type Member = string

  /** A sorted set: the score of every member present. */
  type ZSet = map<Member, int>

  // ---------- the order of members ----------

  predicate LexLess(a: string, b: string)
  {
    if b == [] then false
    else if a == [] then true
    else a[0] < b[0] || (a[0] == b[0] && LexLess(a[1..], b[1..]))
  }

  lemma LexIrreflexive(a: string)
    ensures !LexLess(a, a)
  {
  }

  lemma LexTotal(a: string, b: string)
    ensures a == b || LexLess(a, b) || LexLess(b, a)
  {
    if a != [] && b != [] && a[0] == b[0] {
      LexTotal(a[1..], b[1..]);
      assert a == [a[0]] + a[1..] && b == [b[0]] + b[1..];
    }
  }

  lemma LexTransitive(a: string, b: string, c: string)
    requires LexLess(a, b) && LexLess(b, c)
    ensures LexLess(a, c)
  {
    if a != [] && a[0] == b[0] == c[0] {
      LexTransitive(a[1..], b[1..], c[1..]);
    }
  }

  /** `a` ranks above `b`: later score, or the same score and a greater member. */
  predicate Newer(z: ZSet, a: Member, b: Member)
    requires a in z && b in z
  {
    z[a] > z[b] || (z[a] == z[b] && LexLess(b, a))
  }

  lemma NewerIrreflexive(z: ZSet, a: Member)
    requires a in z
    ensures !Newer(z, a, a)
  {
    LexIrreflexive(a);
  }

  lemma NewerTotal(z: ZSet, a: Member, b: Member)
    requires a in z && b in z && a != b
    ensures Newer(z, a, b) != Newer(z, b, a)
  {
    LexTotal(a, b);
    if LexLess(a, b) && LexLess(b, a) {
      LexTransitive(a, b, a);
      LexIrreflexive(a);
    }
  }

  lemma NewerTransitive(z: ZSet, a: Member, b: Member, c: Member)
    requires a in z && b in z && c in z && Newer(z, a, b) && Newer(z, b, c)
    ensures Newer(z, a, c)
  {
    if z[a] == z[b] == z[c] {
      LexTransitive(c, b, a);
    }
  }

  // ---------- commands ----------

  /** The members ranked above `m`. */
  function Above(z: ZSet, m: Member): set<Member>
    requires m in z
  {
    set x | x in z && Newer(z, x, m)
  }

  /** The members ranked below `m`; its size is the zero-based ascending rank of `m`. */
  function Below(z: ZSet, m: Member): set<Member>
    requires m in z
  {
    set x | x in z && Newer(z, m, x)
  }

  function ZAdd(z: ZSet, m: Member, score: int): ZSet { z[m := score] }

  /** A Redis range index: negative values count from the end. */
  function Index(i: int, n: nat): int { if i < 0 then i + n else i }

  /** Remove the members whose ascending rank lies in start..stop, both ends included. */
  function ZRemRangeByRank(z: ZSet, start: int, stop: int): ZSet
  {
    var lo, hi := Index(start, |z|), Index(stop, |z|);
    map m | m in z && !(lo <= |Below(z, m)| <= hi) :: z[m]
  }

  /** The k highest-ranked members with their scores. */
  function TopK(z: ZSet, k: nat): ZSet
  {
    map m | m in z && |Above(z, m)| < k :: z[m]
  }

  // ---------- ranks ----------

  lemma RankComplement(z: ZSet, m: Member)
    requires m in z
    ensures |Below(z, m)| + |Above(z, m)| + 1 == |z|
  {
    var above, below := Above(z, m), Below(z, m);
    NewerIrreflexive(z, m);
    forall x | x in z && x != m
      ensures (x in above) != (x in below)
    {
      NewerTotal(z, x, m);
    }
    assert z.Keys == above + below + {m};
    assert above !! below && m !in above + below;
  }

  /** `ZREMRANGEBYRANK key 0 -(k+1)` keeps exactly the k highest-ranked members. */
  lemma TrimKeepsTopK(z: ZSet, k: nat)
    ensures ZRemRangeByRank(z, 0, -(k + 1)) == TopK(z, k)
  {
    forall m | m in z
      ensures (0 <= |Below(z, m)| <= Index(-(k + 1), |z|)) <==> |Above(z, m)| >= k
    {
      RankComplement(z, m);
    }
  }

  /** Some member of a non-empty sorted set ranks below all the others. */
  lemma {:induction false} LowestExists(z: ZSet) returns (low: Member)
    requires z != map[]
    ensures low in z && Above(z, low) == z.Keys - {low}
    decreases |z|
  {
    var m :| m in z;
    var rest := z - {m};
    NewerIrreflexive(z, m);
    if rest == map[] {
      assert z.Keys == rest.Keys + {m};
      low := m;
    } else {
      assert |rest.Keys| == |z.Keys - {m}|;
      var r := LowestExists(rest);
      NewerTotal(z, m, r);
      NewerIrreflexive(z, r);
      forall x | x in z && x != m && x != r
        ensures Newer(z, x, r)
      {
        assert x in Above(rest, r);
        assert Newer(rest, x, r);
      }
      if Newer(z, m, r) {
        low := r;
      } else {
        low := m;
        forall x | x in z && x != m ensures Newer(z, x, m) {
          if x != r { NewerTransitive(z, x, r, m); }
        }
      }
    }
  }

  /** Dropping the lowest member does not disturb the ranks above it. */
  lemma {:induction false} TopKSize(z: ZSet, k: nat)
    ensures |TopK(z, k)| == if |z| < k then |z| else k
    decreases |z|
  {
    if |z| <= k {
      forall m | m in z ensures |Above(z, m)| < k {
        NewerIrreflexive(z, m);
        SubsetSize(Above(z, m), z.Keys - {m});
      }
      assert TopK(z, k) == z;
    } else {
      var low := LowestExists(z);
      var rest := z - {low};
      assert rest.Keys == z.Keys - {low};
      TopKSize(rest, k);
      forall m | m in rest ensures Above(z, m) == Above(rest, m) {
        NewerTotal(z, m, low);
        assert m in Above(z, low);
      }
      assert TopK(z, k) == TopK(rest, k);
    }
  }

  // ---------- truncation against a fixed score table ----------

  /** `z` is part of `all`: the same score wherever both have a member. */
  predicate Part(z: ZSet, all: ZSet)
  {
    forall m :: m in z ==> m in all && z[m] == all[m]
  }

  lemma AboveOfPart(z: ZSet, all: ZSet, m: Member)
    requires Part(z, all) && m in z
    ensures Above(z, m) == Above(all, m) * z.Keys
    ensures |Above(z, m)| <= |Above(all, m)|
  {
    forall x | x in z ensures Newer(z, x, m) <==> Newer(all, x, m) { }
    SubsetSize(Above(z, m), Above(all, m));
  }

  /** A member outside the top k ranks below every member of the top k. */
  lemma OutsideTopKIsBelow(all: ZSet, k: nat, m: Member, x: Member)
    requires m in all && m !in TopK(all, k) && x in TopK(all, k)
    ensures Newer(all, x, m)
  {
    if !Newer(all, x, m) {
      NewerTotal(all, x, m);
      forall y | y in Above(all, m) ensures y in Above(all, x) { NewerTransitive(all, y, m, x); }
      SubsetSize(Above(all, m), Above(all, x));
      assert false;
    }
  }

  /** Any sorted set between the top k of `all` and `all` itself has that same top k. */
  lemma SandwichTopK(z: ZSet, all: ZSet, k: nat)
    requires Part(TopK(all, k), z) && Part(z, all)
    ensures TopK(z, k) == TopK(all, k)
  {
    forall m | m in z
      ensures m in TopK(z, k) <==> m in TopK(all, k)
    {
      AboveOfPart(z, all, m);
      if m !in TopK(all, k) {
        forall x | x in TopK(all, k) ensures x in Above(z, m) {
          OutsideTopKIsBelow(all, k, m, x);
        }
        SubsetSize(TopK(all, k).Keys, Above(z, m));
        TopKSize(all, k);
        SubsetSize(Above(all, m), all.Keys);
        assert |Above(z, m)| >= k;
      }
    }
  }

  /** Truncating loses nothing that a later, larger top k could need. */
  lemma TopKAfterAdd(z: ZSet, all: ZSet, k: nat, m: Member, score: int)
    requires Part(TopK(all, k), z) && Part(z, all)
    requires m in all ==> all[m] == score
    ensures Part(TopK(ZAdd(all, m, score), k), ZAdd(z, m, score))
    ensures Part(ZAdd(z, m, score), ZAdd(all, m, score))
  {
    var more := ZAdd(all, m, score);
    assert Part(all, more);
    forall x | x in TopK(more, k) && x != m ensures x in TopK(all, k) {
      AboveOfPart(all, more, x);
    }
  }

  // ---------- reads in descending order ----------

  /** Some member of a non-empty sorted set ranks above all the others. */
  lemma {:induction false} HighestExists(z: ZSet) returns (top: Member)
    requires z != map[]
    ensures top in z && Below(z, top) == z.Keys - {top}
    decreases |z|
  {
    var m :| m in z;
    var rest := z - {m};
    NewerIrreflexive(z, m);
    if rest == map[] {
      assert z.Keys == rest.Keys + {m};
      top := m;
    } else {
      assert |rest.Keys| == |z.Keys - {m}|;
      var r := HighestExists(rest);
      NewerTotal(z, m, r);
      NewerIrreflexive(z, r);
      forall x | x in z && x != m && x != r
        ensures Newer(z, r, x)
      {
        assert x in Below(rest, r);
        assert Newer(rest, r, x);
      }
      if Newer(z, r, m) {
        top := r;
      } else {
        top := m;
        forall x | x in z && x != m ensures Newer(z, m, x) {
          if x != r { NewerTransitive(z, m, r, x); }
        }
      }
    }
  }

  lemma SomeIsHighest(z: ZSet)
    requires z != map[]
    ensures exists m :: m in z && Below(z, m) == z.Keys - {m}
  {
    var top := HighestExists(z);
  }

  lemma HighestUnique(z: ZSet, a: Member, b: Member)
    requires a in z && b in z && Below(z, a) == z.Keys - {a} && Below(z, b) == z.Keys - {b}
    ensures a == b
  {
    if a != b {
      assert b in Below(z, a) && a in Below(z, b);
      NewerTotal(z, a, b);
    }
  }

  function Highest(z: ZSet): (m: Member)
    requires z != map[]
    ensures m in z && Below(z, m) == z.Keys - {m}
  {
    SomeIsHighest(z);
    assert forall a, b :: a in z && b in z && Below(z, a) == z.Keys - {a} && Below(z, b) == z.Keys - {b} ==> a == b by {
      forall a, b | a in z && b in z && Below(z, a) == z.Keys - {a} && Below(z, b) == z.Keys - {b} ensures a == b {
        HighestUnique(z, a, b);
      }
    }
    var m :| m in z && Below(z, m) == z.Keys - {m};
    m
  }

  /** All members, highest-ranked first. */
  function Descending(z: ZSet): (s: seq<Member>)
    ensures |s| == |z|
    ensures forall m :: m in s <==> m in z
    decreases |z|
  {
    if z == map[] then []
    else
      var m := Highest(z);
      assert (z - {m}).Keys == z.Keys - {m};
      [m] + Descending(z - {m})
  }

  /** Each member of the list ranks above the ones after it. */
  predicate Ranked(z: ZSet, s: seq<Member>)
  {
    && (forall m :: m in s ==> m in z)
    && (forall i, j :: 0 <= i < j < |s| ==> Newer(z, s[i], s[j]))
  }

  lemma DescendingStep(z: ZSet)
    requires z != map[]
    ensures Descending(z) == [Highest(z)] + Descending(z - {Highest(z)})
    ensures |z - {Highest(z)}| < |z|
  {
    assert (z - {Highest(z)}).Keys == z.Keys - {Highest(z)};
  }

  lemma RankedCons(z: ZSet, m: Member, s: seq<Member>)
    requires m in z && Ranked(z - {m}, s) && forall x :: x in s ==> x in Below(z, m)
    ensures Ranked(z, [m] + s)
  {
    var t := [m] + s;
    forall x | x in t ensures x in z { assert x == m || x in s; }
    forall i, j | 0 <= i < j < |t| ensures t[i] in t && t[j] in t && Newer(z, t[i], t[j]) {
      assert t[j] == s[j - 1] && s[j - 1] in s;
      if i > 0 { assert t[i] == s[i - 1] && Newer(z - {m}, s[i - 1], s[j - 1]); }
    }
  }

  /** No member occurs twice in the list and each is above the ones after it. */
  lemma {:induction false} DescendingIsSorted(z: ZSet)
    ensures Ranked(z, Descending(z))
    decreases |z|
  {
    if z != map[] {
      var m := Highest(z);
      DescendingStep(z);
      DescendingIsSorted(z - {m});
      RankedCons(z, m, Descending(z - {m}));
    }
  }

  /** `s` lists exactly the members, each ranked above the ones after it. */
  ghost predicate RankOrder(z: ZSet, s: seq<Member>)
  {
    (forall m :: m in s <==> m in z) && Ranked(z, s)
  }

  lemma RankOrderHead(z: ZSet, m: Member, rest: seq<Member>)
    requires RankOrder(z, [m] + rest)
    ensures z != map[] && m == Highest(z)
  {
    var s := [m] + rest;
    assert s[0] in s;
    NewerIrreflexive(z, m);
    forall x | x in z && x != m ensures x in Below(z, m) {
      var i :| 0 <= i < |s| && s[i] == x;
      assert Newer(z, s[0], s[i]);
    }
    HighestUnique(z, m, Highest(z));
  }

  lemma RankOrderTail(z: ZSet, m: Member, rest: seq<Member>)
    requires RankOrder(z, [m] + rest)
    ensures RankOrder(z - {m}, rest)
  {
    var s := [m] + rest;
    forall x | x in rest ensures x in z && x != m {
      var i :| 0 <= i < |rest| && rest[i] == x;
      assert s[i + 1] == x && Newer(z, s[0], s[i + 1]);
      NewerIrreflexive(z, x);
    }
    forall x | x in z && x != m ensures x in rest { assert x in s; }
    forall i, j | 0 <= i < j < |rest| ensures rest[i] in z - {m} && rest[j] in z - {m} && Newer(z - {m}, rest[i], rest[j]) {
      assert Newer(z, s[i + 1], s[j + 1]) && rest[i] in rest && rest[j] in rest;
    }
  }

  /** A list of exactly the members in rank order is the descending list. */
  lemma {:induction false} DescendingUnique(z: ZSet, s: seq<Member>)
    requires RankOrder(z, s)
    ensures s == Descending(z)
    decreases |s|
  {
    if s == [] {
      assert z == map[];
    } else {
      var m, rest := s[0], s[1..];
      assert s == [m] + rest;
      RankOrderHead(z, m, rest);
      RankOrderTail(z, m, rest);
      DescendingUnique(z - {m}, rest);
      DescendingStep(z);
    }
  }

  /** `ZREVRANGE key start stop` for a non-negative start. */
  function ZRevRange(z: ZSet, start: nat, stop: int): seq<Member>
  {
    var last := Index(stop, |z|);
    if start > last || start >= |z| then [] else Take(Descending(z), last + 1)[start..]
  }

  /** A member together with its score. */
  datatype Entry = Entry(member: Member, score: int)

  function WithScores(z: ZSet, ms: seq<Member>): (es: seq<Entry>)
    requires forall m :: m in ms ==> m in z
    ensures |es| == |ms|
    ensures forall i :: 0 <= i < |ms| ==> es[i] == Entry(ms[i], z[ms[i]])
  {
    if ms == [] then [] else WithScores(z, ms[..|ms| - 1]) + [Entry(ms[|ms| - 1], z[ms[|ms| - 1]])]
  }

  function ZRevRangeWithScores(z: ZSet, start: nat, stop: int): seq<Entry>
  {
    WithScores(z, ZRevRange(z, start, stop))
  }

  /** `ZREVRANGEBYSCORE key max -inf LIMIT 0 count`; None stands for +inf. */
  function ZRevRangeByScore(z: ZSet, below: ScoreBound, count: nat): seq<Member>
  {
    Take(Descending(UpTo(z, below)), count)
  }

  /** The members the bound admits. */
  function UpTo(z: ZSet, below: ScoreBound): ZSet
  {
    map m | m in z && below.Admits(z[m]) :: z[m]
  }

  /** How many of them rank above `m`. */
  function Depth(z: ZSet, below: ScoreBound, m: Member): nat
    requires m in z
  {
    |set x | x in z && below.Admits(z[x]) && Newer(z, x, m)|
  }

  datatype ScoreBound = PlusInf | AtMost(max: int) {
    predicate Admits(score: int) { PlusInf? || score <= max }
  }

  /** `ZRANGE key 0 0 WITHSCORES`: the score of the lowest-ranked member, the watermark. */
  function LowestScore(z: ZSet): int
    requires z != map[]
  {
    z[Descending(z)[|z| - 1]]
  }

  lemma LowestScoreIsMinimum(z: ZSet, m: Member)
    requires m in z
    ensures LowestScore(z) <= z[m]
  {
    var s := Descending(z);
    DescendingIsSorted(z);
    var i :| 0 <= i < |s| && s[i] == m;
    if i < |s| - 1 { assert Newer(z, s[i], s[|s| - 1]); }
  }

  // ---------- a prefix of the list is a top k ----------

  lemma RankedIsDistinct(z: ZSet, s: seq<Member>)
    requires Ranked(z, s)
    ensures Distinct(s)
  {
    forall i, j | 0 <= i < j < |s| ensures s[i] != s[j] {
      assert s[i] in s && Newer(z, s[i], s[j]);
      NewerIrreflexive(z, s[i]);
    }
  }

  /** Position is rank. */
  lemma AbovePosition(z: ZSet, s: seq<Member>, i: nat)
    requires RankOrder(z, s) && i < |s|
    ensures s[i] in s && |Above(z, s[i])| == i
  {
    RankedIsDistinct(z, s);
    DistinctSize(s[..i]);
    assert s[i] in s;
    forall x | x in Above(z, s[i]) ensures x in s[..i] {
      var j :| 0 <= j < |s| && s[j] == x;
      NewerIrreflexive(z, x);
      if j > i { NewerTotal(z, s[i], s[j]); }
    }
    assert Above(z, s[i]) == Elements(s[..i]);
  }

  lemma PrefixIsTopK(z: ZSet, s: seq<Member>, n: nat)
    requires RankOrder(z, s)
    ensures RankOrder(TopK(z, n), Take(s, n))
  {
    var t := Take(s, n);
    forall m | m in t ensures m in TopK(z, n) {
      var i :| 0 <= i < |t| && t[i] == m;
      AbovePosition(z, s, i);
    }
    forall m | m in TopK(z, n) ensures m in t {
      var i :| 0 <= i < |s| && s[i] == m;
      AbovePosition(z, s, i);
      assert t[i] == m;
    }
  }

  /** Such a read returns exactly the admitted members of a depth below its count. */
  lemma ReadExactly(z: ZSet, below: ScoreBound, count: nat, m: Member)
    ensures m in ZRevRangeByScore(z, below, count) <==> m in z && below.Admits(z[m]) && Depth(z, below, m) < count
  {
    var u := UpTo(z, below);
    var d := Descending(u);
    DescendingIsSorted(u);
    if m in u {
      var i :| 0 <= i < |d| && d[i] == m;
      AbovePosition(u, d, i);
      DepthIsRank(z, below, m);
      TakeExactly(u, d, count, i);
    }
  }

  lemma DepthIsRank(z: ZSet, below: ScoreBound, m: Member)
    requires m in UpTo(z, below)
    ensures Depth(z, below, m) == |Above(UpTo(z, below), m)|
  {
    assert Above(UpTo(z, below), m) == set x | x in z && below.Admits(z[x]) && Newer(z, x, m);
  }

  lemma TakeExactly(z: ZSet, s: seq<Member>, n: nat, i: nat)
    requires Ranked(z, s) && i < |s|
    ensures s[i] in Take(s, n) <==> i < n
  {
    RankedIsDistinct(z, s);
    TakeKeeps(s, n, i);
  }

  /** The first n members of the descending list are the top n, in order. */
  lemma TakeDescending(z: ZSet, n: nat)
    ensures Take(Descending(z), n) == Descending(TopK(z, n))
  {
    DescendingIsSorted(z);
    PrefixIsTopK(z, Descending(z), n);
    DescendingUnique(TopK(z, n), Take(Descending(z), n));
  }

  lemma ZRevRangeIsTake(z: ZSet, n: nat)
    requires n >= 1
    ensures ZRevRange(z, 0, n - 1) == Take(Descending(z), n)
  {
  }

  /** Such a read of n entries returns exactly the members with fewer than n above them. */
  lemma RangeExactly(z: ZSet, n: nat, m: Member)
    requires n >= 1
    ensures m in ZRevRange(z, 0, n - 1) <==> m in z && |Above(z, m)| < n
  {
    ZRevRangeIsTake(z, n);
    TakeDescending(z, n);
  }

  /** Reading at most k entries cannot tell a truncated sorted set from the full one. */
  lemma ReadsIgnoreTruncation(z: ZSet, all: ZSet, k: nat, n: nat)
    requires Part(TopK(all, k), z) && Part(z, all) && 1 <= n <= k
    ensures ZRevRange(z, 0, n - 1) == ZRevRange(all, 0, n - 1)
    ensures forall m :: m in ZRevRange(z, 0, n - 1) ==> m in z && z[m] == all[m]
  {
    TopNAgrees(z, all, k, n);
    TakeDescending(z, n);
    TakeDescending(all, n);
    ZRevRangeIsTake(z, n);
    ZRevRangeIsTake(all, n);
  }

  lemma TopNAgrees(z: ZSet, all: ZSet, k: nat, n: nat)
    requires Part(TopK(all, k), z) && Part(z, all) && n <= k
    ensures TopK(z, n) == TopK(all, n)
  {
    assert Part(TopK(all, n), TopK(all, k));
    SandwichTopK(z, all, n);
  }
}
