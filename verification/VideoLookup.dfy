/** `GetVideoByIDs`: many videos through the local cache, one MGET to Redis and one database
    lookup for each id still missing, the lookups finishing in any order. */
module VideoLookup {
  import opened Wrappers
  import opened FeedTable

  type Cache = map<nat, Video>

  /** Every entry under an id is the row of that id. */
  ghost predicate Coherent(cache: Cache, rows: set<Video>)
  {
    forall id :: id in cache ==> cache[id] in rows && cache[id].id == id
  }

  lemma EntryIsRow(cache: Cache, rows: set<Video>, id: nat)
    requires ValidRows(rows) && Coherent(cache, rows) && id in cache
    ensures Exists(rows, id) && cache[id] == RowOf(rows, id)
  {
  }

  /** `buildOrderedResult`: the known videos in the order asked for, repeats included. */
  function Ordered(ids: seq<nat>, known: Cache): seq<Video>
  {
    if ids == [] then []
    else Ordered(ids[..|ids| - 1], known) + if ids[|ids| - 1] in known then [known[ids[|ids| - 1]]] else []
  }

  method BuildOrderedResult(ids: seq<nat>, known: Cache) returns (res: seq<Video>)
    ensures res == Ordered(ids, known)
  {
    res := [];
    for i := 0 to |ids|
      invariant res == Ordered(ids[..i], known)
    {
      OrderedStep(ids, i, known);
      if ids[i] in known {
        res := res + [known[ids[i]]];
      }
    }
    assert ids[..|ids|] == ids;
  }

  lemma OrderedStep(ids: seq<nat>, i: nat, known: Cache)
    requires i < |ids|
    ensures Ordered(ids[..i + 1], known) == Ordered(ids[..i], known) + if ids[i] in known then [known[ids[i]]] else []
  {
    assert ids[..i + 1][..i] == ids[..i];
  }

  /** Of the requested ids, those the lookup can answer for. */
  function Kept(ids: seq<nat>, lost: set<nat>): seq<nat>
  {
    if ids == [] then []
    else Kept(ids[..|ids| - 1], lost) + if ids[|ids| - 1] in lost then [] else [ids[|ids| - 1]]
  }

  lemma KeptStep(ids: seq<nat>, lost: set<nat>)
    requires ids != []
    ensures Kept(ids, lost) == if ids[|ids| - 1] in lost then Kept(ids[..|ids| - 1], lost)
                               else Kept(ids[..|ids| - 1], lost) + [ids[|ids| - 1]]
  {
  }

  /** The list holds, in order, the row of every listed id that has one, repeats included. */
  ghost predicate RowsAt(rows: set<Video>, ids: seq<nat>, list: seq<Video>, ks: seq<nat>)
  {
    && |list| == |ks| && (forall i, j :: 0 <= i < j < |ks| ==> ks[i] < ks[j])
    && (forall k: nat :: k in ks <==> k < |ids| && Exists(rows, ids[k]))
    && forall i :: 0 <= i < |list| ==> ks[i] in ks && list[i] in rows && list[i].id == ids[ks[i]]
  }

  lemma {:induction false} RowsInOrderAt(rows: set<Video>, ids: seq<nat>) returns (ks: seq<nat>)
    requires ValidRows(rows)
    ensures RowsAt(rows, ids, RowsInOrder(rows, ids), ks)
    decreases |ids|
  {
    ks := [];
    if ids != [] {
      var before, id := ids[..|ids| - 1], ids[|ids| - 1];
      ks := RowsInOrderAt(rows, before);
      OneMoreRow(rows, before, RowsInOrder(rows, before), ks, id);
      assert ids == before + [id];
      RowsInOrderAppend(rows, before, id);
      if Exists(rows, id) { ks := ks + [|before|]; } else { assert RowsInOrder(rows, before) + [] == RowsInOrder(rows, before); }
    }
  }

  lemma OneMoreRow(rows: set<Video>, ids: seq<nat>, list: seq<Video>, ks: seq<nat>, id: nat)
    requires ValidRows(rows) && RowsAt(rows, ids, list, ks)
    ensures !Exists(rows, id) ==> RowsAt(rows, ids + [id], list, ks)
    ensures Exists(rows, id) ==> RowsAt(rows, ids + [id], list + [RowOf(rows, id)], ks + [|ids|])
  {
    var more := if Exists(rows, id) then ks + [|ids|] else ks;
    forall k: nat ensures k in more <==> k < |ids + [id]| && Exists(rows, (ids + [id])[k]) {
      assert k in more <==> k in ks || (Exists(rows, id) && k == |ids|);
      if k < |ids| { assert (ids + [id])[k] == ids[k]; }
    }
    forall i, j | 0 <= i < j < |more| ensures more[i] < more[j] {
      if j == |ks| { assert ks[i] in ks; }
    }
    forall i | 0 <= i < |list| ensures more[i] in more && list[i] in rows && list[i].id == (ids + [id])[more[i]] { assert ks[i] in ks; }
  }

  lemma {:induction false} KeptMembers(ids: seq<nat>, lost: set<nat>)
    ensures forall id :: id in Kept(ids, lost) <==> id in ids && id !in lost
    decreases |ids|
  {
    if ids != [] {
      var before, id := ids[..|ids| - 1], ids[|ids| - 1];
      assert ids == before + [id];
      KeptMembers(before, lost);
      KeptStep(ids, lost);
    }
  }

  /** Whose rows the list holds. */
  lemma KeptRows(rows: set<Video>, ids: seq<nat>, lost: set<nat>)
    requires ValidRows(rows)
    ensures forall v :: v in RowsInOrder(rows, Kept(ids, lost)) <==> v in rows && v.id in ids && v.id !in lost
  {
    KeptMembers(ids, lost);
    var kept, list := Kept(ids, lost), RowsInOrder(rows, Kept(ids, lost));
    var ks := RowsInOrderAt(rows, kept);
    forall v ensures v in list <==> v in rows && v.id in kept {
      if v in rows && v.id in kept {
        var k: nat :| k < |kept| && kept[k] == v.id;
        assert Exists(rows, kept[k]) && k in ks;
        var i :| 0 <= i < |ks| && ks[i] == k;
        assert list[i] == v;
      }
    }
  }

  lemma RowsInOrderAppend(rows: set<Video>, ids: seq<nat>, id: nat)
    requires ValidRows(rows)
    ensures RowsInOrder(rows, ids + [id]) == RowsInOrder(rows, ids) + if Exists(rows, id) then [RowOf(rows, id)] else []
  {
    assert (ids + [id])[..|ids|] == ids;
  }

  /** Knowing exactly the existing rows that are not lost gives exactly their list. */
  lemma {:induction false} OrderedIsRows(rows: set<Video>, ids: seq<nat>, known: Cache, lost: set<nat>)
    requires ValidRows(rows) && Coherent(known, rows)
    requires forall id :: id in ids ==> (id in known <==> Exists(rows, id) && id !in lost)
    ensures Ordered(ids, known) == RowsInOrder(rows, Kept(ids, lost))
    decreases |ids|
  {
    if ids != [] {
      var before, id := ids[..|ids| - 1], ids[|ids| - 1];
      assert id in ids;
      OrderedIsRows(rows, before, known, lost);
      KeptStep(ids, lost);
      if id !in lost { RowsInOrderAppend(rows, Kept(before, lost), id); }
      if id in known { EntryIsRow(known, rows, id); }
    }
  }

  lemma {:induction false} NothingLost(ids: seq<nat>)
    ensures Kept(ids, {}) == ids
    decreases |ids|
  {
    if ids != [] {
      NothingLost(ids[..|ids| - 1]);
    }
  }

  lemma {:induction false} KeptIsShorter(rows: set<Video>, ids: seq<nat>, lost: set<nat>)
    requires ValidRows(rows)
    ensures |RowsInOrder(rows, Kept(ids, lost))| <= |RowsInOrder(rows, ids)|
    ensures |RowsInOrder(rows, Kept(ids, lost))| == |RowsInOrder(rows, ids)| ==>
              forall id :: id in ids && Exists(rows, id) ==> id !in lost
    decreases |ids|
  {
    if ids != [] {
      var before, id := ids[..|ids| - 1], ids[|ids| - 1];
      assert ids == before + [id];
      KeptIsShorter(rows, before, lost);
      KeptStep(ids, lost);
      RowsInOrderAppend(rows, before, id);
      RowsInOrderAppend(rows, Kept(before, lost), id);
    }
  }

  lemma {:induction false} LosingAbsentRows(rows: set<Video>, ids: seq<nat>, lost: set<nat>)
    requires ValidRows(rows) && forall id :: id in ids && id in lost ==> !Exists(rows, id)
    ensures RowsInOrder(rows, Kept(ids, lost)) == RowsInOrder(rows, ids)
    decreases |ids|
  {
    if ids != [] {
      var before, id := ids[..|ids| - 1], ids[|ids| - 1];
      assert ids == before + [id] && id in ids;
      LosingAbsentRows(rows, before, lost);
      KeptStep(ids, lost);
      RowsInOrderAppend(rows, before, id);
      RowsInOrderAppend(rows, Kept(before, lost), id);
    }
  }

  /** The answer is the database's answer exactly when no existing row was lost. */
  lemma CompleteExactlyWhenNothingLost(rows: set<Video>, ids: seq<nat>, lost: set<nat>)
    requires ValidRows(rows)
    ensures (RowsInOrder(rows, Kept(ids, lost)) == RowsInOrder(rows, ids)) <==>
            (forall id :: id in ids && id in lost ==> !Exists(rows, id))
  {
    if forall id :: id in ids && id in lost ==> !Exists(rows, id) {
      LosingAbsentRows(rows, ids, lost);
    } else {
      KeptIsShorter(rows, ids, lost);
    }
  }

  // ---------- the service ----------

  /** How the calls of one request go: is there a Redis client, does MGET succeed, which of its
      values do not decode, which database lookups fail, which write-backs to Redis fail. */
  datatype Calls = Calls(redis: bool, mgetOk: bool, garbled: set<nat>, dbFaults: set<nat>, setFaults: set<nat>)

  /** The id is answered for: from the local cache; with a Redis client also from Redis, or, when
      Redis does not have it in good order, by a lookup of its own. */
  ghost predicate Answered(id: nat, local: Cache, remote: Cache, c: Calls)
  {
    id in local || (c.redis && ((c.mgetOk && id in remote && id !in c.garbled) || id !in c.dbFaults))
  }

  ghost function Lost(ids: seq<nat>, local: Cache, remote: Cache, c: Calls): set<nat>
  {
    set id | id in ids && !Answered(id, local, remote, c)
  }

  /** What one lookup brings. */
  ghost function Gain(rows: set<Video>, id: nat, c: Calls): set<nat>
  {
    if Exists(rows, id) && id !in c.dbFaults then {id} else {}
  }

  /** The cache has these entries more. */
  ghost predicate Grew(was: Cache, now: Cache, more: set<nat>)
  {
    forall id :: id in now <==> id in was || id in more
  }

  lemma GrewOn(a: Cache, b: Cache, c: Cache, some: set<nat>, more: set<nat>)
    requires Grew(a, b, some) && Grew(b, c, more)
    ensures Grew(a, c, some + more)
  {
  }

  class VideoCaches {
    var local: Cache
    var remote: Cache

    constructor ()
      ensures local == map[] && remote == map[]
    {
      local, remote := map[], map[];
    }

    ghost predicate AgreeWith(rows: set<Video>)
      reads this
    {
      Coherent(local, rows) && Coherent(remote, rows)
    }

    method ReadLocal(ids: seq<nat>) returns (known: Cache, missed: seq<nat>)
      ensures forall id :: id in known <==> id in ids && id in local
      ensures forall id :: id in known ==> known[id] == local[id]
      ensures forall id :: id in missed <==> id in ids && id !in local
    {
      known, missed := map[], [];
      for i := 0 to |ids|
        invariant forall id :: id in known <==> id in ids[..i] && id in local
        invariant forall id :: id in known ==> known[id] == local[id]
        invariant forall id :: id in missed <==> id in ids[..i] && id !in local
      {
        if ids[i] in local {
          known := known[ids[i] := local[ids[i]]];
        } else {
          missed := missed + [ids[i]];
        }
      }
    }

    /** Hits are taken over and written back to the local cache. */
    method ReadRemote(before: Cache, ids: seq<nat>, garbled: set<nat>, ghost rows: set<Video>) returns (known: Cache, missed: seq<nat>)
      requires AgreeWith(rows) && Coherent(before, rows)
      modifies this`local
      ensures AgreeWith(rows) && Coherent(known, rows)
      ensures forall id :: id in known <==> id in before || (id in ids && id in remote && id !in garbled)
      ensures forall id :: id in missed <==> id in ids && !(id in remote && id !in garbled)
      ensures forall id :: id in local <==> id in old(local) || (id in ids && id in remote && id !in garbled)
    {
      known, missed := before, [];
      for i := 0 to |ids|
        invariant AgreeWith(rows) && Coherent(known, rows)
        invariant forall id :: id in known <==> id in before || (id in ids[..i] && id in remote && id !in garbled)
        invariant forall id :: id in missed <==> id in ids[..i] && !(id in remote && id !in garbled)
        invariant forall id :: id in local <==> id in old(local) || (id in ids[..i] && id in remote && id !in garbled)
      {
        var id := ids[i];
        if id in remote && id !in garbled {
          known := known[id := remote[id]];
          local := local[id := remote[id]];
        } else {
          missed := missed + [id];
        }
      }
    }

    /** One lookup per missing id, in whatever order they finish. */
    method ReadDatabase(rows: set<Video>, before: Cache, ids: seq<nat>, c: Calls) returns (known: Cache)
      requires ValidRows(rows) && AgreeWith(rows) && Coherent(before, rows)
      modifies this
      ensures AgreeWith(rows) && Coherent(known, rows)
      ensures forall id :: id in known <==> id in before || (id in ids && Exists(rows, id) && id !in c.dbFaults)
      // Every row found goes into the local cache, and into Redis unless the write fails.
      ensures forall id :: id in local <==> id in old(local) || (id in ids && Exists(rows, id) && id !in c.dbFaults)
      ensures forall id :: id in remote <==> id in old(remote) || (id in ids && Exists(rows, id) && id !in c.dbFaults && id !in c.setFaults)
    {
      known := before;
      var running := multiset(ids);
      ghost var found := set id | id in ids && Exists(rows, id) && id !in c.dbFaults;
      ghost var done, written: set<nat> := {}, {};
      while running != multiset{}
        invariant AgreeWith(rows) && Coherent(known, rows)
        invariant (forall id :: id in running ==> id in ids) && done <= found && written == done - c.setFaults
        invariant forall id :: id in found ==> id in done || id in running
        invariant Grew(before, known, done) && Grew(old(local), local, done) && Grew(old(remote), remote, written)
        decreases |running|
      {
        var id :| id in running;
        running := running - multiset{id};
        ghost var was, wasLocal, wasRemote := known, local, remote;
        ghost var one, set1 := Gain(rows, id, c), Gain(rows, id, c) - c.setFaults;
        known := LookUpRow(rows, known, id, c);
        GrewOn(before, was, known, done, one);
        GrewOn(old(local), wasLocal, local, done, one);
        GrewOn(old(remote), wasRemote, remote, written, set1);
        done, written := done + one, written + set1;
      }
      assert done == found;
    }

    /** One lookup: the row goes into what is known and into both caches. */
    method LookUpRow(rows: set<Video>, before: Cache, id: nat, c: Calls) returns (known: Cache)
      requires ValidRows(rows) && AgreeWith(rows) && Coherent(before, rows)
      modifies this
      ensures AgreeWith(rows) && Coherent(known, rows)
      ensures Grew(before, known, Gain(rows, id, c)) && Grew(old(local), local, Gain(rows, id, c))
      ensures Grew(old(remote), remote, Gain(rows, id, c) - c.setFaults)
    {
      known := before;
      if id !in c.dbFaults && Exists(rows, id) {
        var v := RowOf(rows, id);
        if id !in c.setFaults {
          remote := remote[id := v];
        }
        known := known[id := v];
        local := local[id := v];
      }
    }

    /** The rows asked for, in that order, except those lost; and the caches still agree. */
    method GetVideoByIDs(rows: set<Video>, ids: seq<nat>, c: Calls) returns (videos: seq<Video>)
      requires ValidRows(rows) && AgreeWith(rows)
      modifies this
      ensures AgreeWith(rows)
      ensures videos == RowsInOrder(rows, Kept(ids, Lost(ids, old(local), old(remote), c)))
      ensures forall v :: v in videos <==> v in rows && v.id in ids && Answered(v.id, old(local), old(remote), c)
      // What was found is in the local cache afterwards, and nothing is forgotten.
      ensures forall id :: id in local <==>
                id in old(local) || (id in ids && Exists(rows, id) && Answered(id, old(local), old(remote), c))
      ensures forall id :: id in remote <==>
                id in old(remote) || (c.redis && id in ids && id !in old(local) && Exists(rows, id) && id !in c.dbFaults && id !in c.setFaults)
      ensures c.redis && c.dbFaults == {} ==> videos == RowsInOrder(rows, ids)
    {
      ghost var lost := Lost(ids, local, remote, c);
      NothingLost(ids);
      assert c.redis && c.dbFaults == {} ==> lost == {};
      var known := LookUp(rows, ids, c);
      OrderedIsRows(rows, ids, known, lost);
      KeptRows(rows, ids, lost);
      videos := BuildOrderedResult(ids, known);
    }

    /** The three levels, each for what the one before it missed. */
    method LookUp(rows: set<Video>, ids: seq<nat>, c: Calls) returns (known: Cache)
      requires ValidRows(rows) && AgreeWith(rows)
      modifies this
      ensures AgreeWith(rows) && Coherent(known, rows)
      ensures forall id :: id in ids ==> (id in known <==> Exists(rows, id) && Answered(id, old(local), old(remote), c))
      ensures forall id :: id in local <==>
                id in old(local) || (id in ids && Exists(rows, id) && Answered(id, old(local), old(remote), c))
      ensures forall id :: id in remote <==>
                id in old(remote) || (c.redis && id in ids && id !in old(local) && Exists(rows, id) && id !in c.dbFaults && id !in c.setFaults)
    {
      var missedL1: seq<nat>;
      known, missedL1 := ReadLocal(ids);
      if |missedL1| == 0 || !c.redis {
        return;
      }
      var missedL2 := missedL1;
      if c.mgetOk {
        known, missedL2 := ReadRemote(known, missedL1, c.garbled, rows);
      }
      if |missedL2| > 0 {
        known := ReadDatabase(rows, known, missedL2, c);
      }
    }
  }
}
