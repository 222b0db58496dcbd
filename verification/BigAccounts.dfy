/** The followed big accounts of a reader: which they are, how active each is, and how many
    entries to pull from each. */
module BigAccounts {
  import opened Wrappers
  import opened Collections
  import opened Decimal
  import opened Zset
  import opened VideoHeap
  import Merge

  // ---------- sampling the followed big accounts ----------

  /** A missing Redis key is an empty sorted set. */
  function OutboxOf(userVideos: map<nat, ZSet>, id: nat): ZSet
  {
    if id in userVideos then userVideos[id] else map[]
  }

  predicate NamesAccount(member: string, id: nat) { id != 0 && ParseUint(member) == Some(id) }

  /** The accounts named by the members of the set; what does not parse, or is 0, is skipped. */
  method ParseAccounts(members: seq<string>) returns (ids: seq<nat>)
    ensures forall id :: id in ids <==> exists i :: 0 <= i < |members| && NamesAccount(members[i], id)
  {
    ids := [];
    for i := 0 to |members|
      invariant forall id :: id in ids <==> exists j :: 0 <= j < i && NamesAccount(members[j], id)
    {
      var id := ParseUint(members[i]);
      if id.None? || id.value == 0 {
        continue;
      }
      assert NamesAccount(members[i], id.value);
      ids := ids + [id.value];
    }
  }

  /** The newest score of every account in `ids` that could be read and has an outbox. */
  ghost predicate Sampled(samples: map<nat, int>, ids: seq<nat>, userVideos: map<nat, ZSet>, failed: set<nat>)
  {
    && (forall id :: id in samples <==> id in ids && id !in failed && OutboxOf(userVideos, id) != map[])
    && (forall id :: id in samples ==> samples[id] == HighestScore(OutboxOf(userVideos, id)))
  }

  function HighestScore(z: ZSet): int { if z == map[] then 0 else z[Highest(z)] }

  lemma HighestScoreIsMaximum(z: ZSet, m: Member)
    requires m in z
    ensures z[m] <= HighestScore(z)
  {
    if m != Highest(z) { assert m in Below(z, Highest(z)); }
  }

  lemma NewestEntry(z: ZSet)
    ensures |ZRevRangeWithScores(z, 0, 0)| == if z == map[] then 0 else 1
    ensures z != map[] ==> ZRevRangeWithScores(z, 0, 0)[0].score == HighestScore(z)
  {
    if z != map[] {
      DescendingStep(z);
      assert ZRevRange(z, 0, 0) == [Highest(z)];
    }
  }

  lemma SampledStep(samples: map<nat, int>, ids: seq<nat>, id: nat, userVideos: map<nat, ZSet>, failed: set<nat>)
    requires Sampled(samples, ids, userVideos, failed)
    ensures var z := OutboxOf(userVideos, id);
            Sampled(if id !in failed && z != map[] then samples[id := HighestScore(z)] else samples, ids + [id], userVideos, failed)
  {
  }

  /** One read of the newest entry of each account; a failed read leaves the account out. */
  method Sample(ids: seq<nat>, userVideos: map<nat, ZSet>, failed: set<nat>) returns (samples: map<nat, int>)
    ensures Sampled(samples, ids, userVideos, failed)
  {
    samples := map[];
    for i := 0 to |ids|
      invariant Sampled(samples, ids[..i], userVideos, failed)
    {
      var id := ids[i];
      SampledStep(samples, ids[..i], id, userVideos, failed);
      assert ids[..i + 1] == ids[..i] + [id];
      if id !in failed {
        NewestEntry(OutboxOf(userVideos, id));
        var items := ZRevRangeWithScores(OutboxOf(userVideos, id), 0, 0);
        if |items| > 0 {
          samples := samples[id := items[0].score];
        }
      }
    }
    assert ids[..|ids|] == ids;
  }

  /** A followed big account with the score of its newest video. */
  datatype BigV = BigV(id: nat, newestAt: int)

  /** `accounts` lists each sampled account once. */
  ghost predicate Lists(accounts: seq<BigV>, samples: map<nat, int>)
  {
    && (forall i, j :: 0 <= i < j < |accounts| ==> accounts[i].id != accounts[j].id)
    && (forall bv :: bv in accounts <==> bv.id in samples && samples[bv.id] == bv.newestAt)
  }

  /** A map is read out in arbitrary order. */
  method ReadOut(samples: map<nat, int>) returns (accounts: seq<BigV>)
    ensures Lists(accounts, samples)
  {
    accounts := [];
    var left := samples.Keys;
    while left != {}
      invariant left <= samples.Keys
      invariant forall i, j :: 0 <= i < j < |accounts| ==> accounts[i].id != accounts[j].id
      invariant forall bv :: bv in accounts <==> bv.id in samples && bv.id !in left && samples[bv.id] == bv.newestAt
      decreases |left|
    {
      var id :| id in left;
      left := left - {id};
      accounts := accounts + [BigV(id, samples[id])];
    }
  }

  predicate MostActiveFirst(s: seq<BigV>) { forall i, j :: 0 <= i < j < |s| ==> s[i].newestAt >= s[j].newestAt }

  /** The library sort: some order of the accounts, most active first. */
  function SortedByActivity(s: seq<BigV>): (r: seq<BigV>)
    ensures multiset(r) == multiset(s) && MostActiveFirst(r)
  {
    if s == [] then []
    else
      assert s == s[..|s| - 1] + [s[|s| - 1]];
      Insert(SortedByActivity(s[..|s| - 1]), s[|s| - 1])
  }

  function Insert(s: seq<BigV>, x: BigV): (r: seq<BigV>)
    requires MostActiveFirst(s)
    ensures multiset(r) == multiset(s) + multiset{x} && MostActiveFirst(r)
  {
    if s == [] || s[|s| - 1].newestAt >= x.newestAt then s + [x]
    else
      var before, last := s[..|s| - 1], s[|s| - 1];
      assert s == before + [last];
      InsertKeepsOrder(before, Insert(before, x), last, x);
      Insert(before, x) + [last]
  }

  lemma InsertKeepsOrder(before: seq<BigV>, inserted: seq<BigV>, last: BigV, x: BigV)
    requires MostActiveFirst(before + [last]) && MostActiveFirst(inserted)
    requires multiset(inserted) == multiset(before) + multiset{x} && last.newestAt <= x.newestAt
    ensures MostActiveFirst(inserted + [last])
  {
    forall i | 0 <= i < |inserted| ensures inserted[i].newestAt >= last.newestAt {
      assert inserted[i] in multiset(inserted);
      if inserted[i] != x {
        assert inserted[i] in before;
        var k :| 0 <= k < |before| && before[k] == inserted[i];
        assert (before + [last])[k] == inserted[i] && (before + [last])[|before|] == last;
      }
    }
  }

  lemma SortStillLists(accounts: seq<BigV>, samples: map<nat, int>)
    requires Lists(accounts, samples)
    ensures Lists(SortedByActivity(accounts), samples)
  {
    var r := SortedByActivity(accounts);
    PermutationIsDistinct(accounts, r);
    forall bv ensures bv in r <==> bv in accounts { assert bv in multiset(r) <==> bv in multiset(accounts); }
    forall i, j | 0 <= i < j < |r| ensures r[i].id != r[j].id {
      assert r[i] in r && r[j] in r && r[i] != r[j];
    }
  }

  // ---------- deciding what to pull ----------

  function Oldest(push: Merge.Stream): int
    requires push != []
  {
    push[|push| - 1].createTime
  }

  /** The test inside the quota loop. */
  ghost predicate Cold(push: Merge.Stream, bv: BigV)
  {
    push != [] && bv.newestAt <= push[|push| - 1].createTime
  }

  method NewestScore(sampled: seq<BigV>) returns (newest: int)
    ensures newest >= 0
    ensures forall i :: 0 <= i < |sampled| ==> sampled[i].newestAt <= newest
    ensures newest == 0 || exists i :: 0 <= i < |sampled| && sampled[i].newestAt == newest
  {
    newest := 0;
    for i := 0 to |sampled|
      invariant newest >= 0
      invariant forall j :: 0 <= j < i ==> sampled[j].newestAt <= newest
      invariant newest == 0 || exists j :: 0 <= j < i && sampled[j].newestAt == newest
    {
      if sampled[i].newestAt > newest {
        newest := sampled[i].newestAt;
      }
    }
  }

  function Sum(s: seq<nat>): nat { if s == [] then 0 else Sum(s[..|s| - 1]) + s[|s| - 1] }

  /** What the quota is for: the room left on the page, or a whole page when there is none. */
  ghost predicate Needs(push: Merge.Stream, limit: nat, needed: nat)
  {
    if |push| < limit then |push| + needed == limit else needed == limit
  }

  /** The shares given out: at most 10 each, none to cold accounts, never more than needed;
      whatever is left over means every warm account has its 10; and an account gets anything
      only when all warm accounts before it, the more active ones, have their 10. */
  ghost predicate FairShares(push: Merge.Stream, limit: nat, sorted: seq<BigV>, takes: seq<nat>)
  {
    && |takes| == |sorted|
    && (forall i :: 0 <= i < |takes| ==> takes[i] <= 10 && (Cold(push, sorted[i]) ==> takes[i] == 0))
    && (forall needed: nat :: Needs(push, limit, needed) ==> Sum(takes) <= needed)
    && ((exists needed: nat :: Needs(push, limit, needed) && Sum(takes) < needed) ==>
          forall i :: 0 <= i < |takes| && !Cold(push, sorted[i]) ==> takes[i] == 10)
    && (forall i, j :: 0 <= i < j < |takes| && takes[j] > 0 && !Cold(push, sorted[i]) ==> takes[i] == 10)
  }

  method AllocateQuota(push: Merge.Stream, limit: nat, sorted: seq<BigV>) returns (takes: seq<nat>)
    ensures FairShares(push, limit, sorted, takes)
  {
    var needed: int := limit - |push|;
    if needed <= 0 {
      needed := limit;
    }
    var remaining := needed;
    takes := [];
    for i := 0 to |sorted|
      invariant |takes| == i && 0 <= remaining && Sum(takes) + remaining == needed
      invariant forall j :: 0 <= j < i ==> takes[j] <= 10 && (Cold(push, sorted[j]) ==> takes[j] == 0)
      invariant remaining > 0 ==> forall j :: 0 <= j < i && !Cold(push, sorted[j]) ==> takes[j] == 10
      invariant forall j, k :: 0 <= j < k < i && takes[k] > 0 && !Cold(push, sorted[j]) ==> takes[j] == 10
    {
      var take := 0;
      if remaining > 0 && !(push != [] && sorted[i].newestAt <= Oldest(push)) {
        take := if remaining > 10 then 10 else remaining;
      }
      assert (takes + [take])[..i] == takes;
      takes := takes + [take];
      remaining := remaining - take;
    }
    SharesAreFair(push, limit, needed, sorted, takes);
  }

  lemma SharesAreFair(push: Merge.Stream, limit: nat, needed: nat, sorted: seq<BigV>, takes: seq<nat>)
    requires Needs(push, limit, needed) && |takes| == |sorted| && Sum(takes) <= needed
    requires forall i :: 0 <= i < |takes| ==> takes[i] <= 10 && (Cold(push, sorted[i]) ==> takes[i] == 0)
    requires Sum(takes) < needed ==> forall i :: 0 <= i < |takes| && !Cold(push, sorted[i]) ==> takes[i] == 10
    requires forall i, j :: 0 <= i < j < |takes| && takes[j] > 0 && !Cold(push, sorted[i]) ==> takes[i] == 10
    ensures FairShares(push, limit, sorted, takes)
  {
  }

  /** The shares are the only fair ones. */
  lemma {:induction false} FairSharesUnique(push: Merge.Stream, limit: nat, sorted: seq<BigV>, a: seq<nat>, b: seq<nat>, i: nat)
    requires FairShares(push, limit, sorted, a) && FairShares(push, limit, sorted, b) && i <= |sorted|
    ensures a[..i] == b[..i]
  {
    if i > 0 {
      FairSharesUnique(push, limit, sorted, a, b, i - 1);
      assert a[..i] == a[..i - 1] + [a[i - 1]] && b[..i] == b[..i - 1] + [b[i - 1]];
      if a[i - 1] < b[i - 1] { ShareIsForced(push, limit, sorted, a, b, i - 1); }
      if b[i - 1] < a[i - 1] { ShareIsForced(push, limit, sorted, b, a, i - 1); }
    }
  }

  lemma {:induction false} SumSplits(s: seq<nat>, i: nat)
    requires i <= |s|
    ensures Sum(s) == Sum(s[..i]) + Sum(s[i..])
    decreases |s| - i
  {
    if i == |s| {
      assert s[..i] == s && s[i..] == [];
    } else {
      SumSplits(s[..|s| - 1], i);
      assert s[..|s| - 1][..i] == s[..i];
      assert s[i..][..|s[i..]| - 1] == s[..|s| - 1][i..];
    }
  }

  lemma {:induction false} SumOfZeros(s: seq<nat>)
    requires forall i :: 0 <= i < |s| ==> s[i] == 0
    ensures Sum(s) == 0
  {
    if s != [] { SumOfZeros(s[..|s| - 1]); }
  }

  /** An account short of its 10 leaves nothing for the ones after it, so a larger share there
      would break the total. */
  lemma ShareIsForced(push: Merge.Stream, limit: nat, sorted: seq<BigV>, a: seq<nat>, b: seq<nat>, i: nat)
    requires FairShares(push, limit, sorted, a) && FairShares(push, limit, sorted, b) && i < |sorted|
    requires a[..i] == b[..i]
    ensures a[i] >= b[i]
  {
    if a[i] < b[i] {
      assert Needs(push, limit, if |push| < limit then limit - |push| else limit);
      SumSplits(a, i + 1);
      SumSplits(b, i + 1);
      assert a[..i + 1] == a[..i] + [a[i]] && b[..i + 1] == b[..i] + [b[i]];
      SumOfZeros(a[i + 1..]);
    }
  }
}
