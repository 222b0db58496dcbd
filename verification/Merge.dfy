/** `mergeAndDedup`: the k-way merge of the inbox stream with the pulled streams. The method
    is proved to be "sort everything by creation time, drop repeated ids, take the first
    `limit`". */
module Merge {
  import opened Collections
  import opened VideoHeap

  type Stream = seq<VideoWithTime>

  predicate Sorted(s: seq<VideoWithTime>)
  {
    forall i, j :: 0 <= i < j < |s| ==> s[i].createTime >= s[j].createTime
  }

  // ---------- what is still to be merged ----------

  predicate Positions(streams: seq<Stream>, q: seq<nat>)
  {
    |q| == |streams| && forall k :: 0 <= k < |q| ==> q[k] <= |streams[k]|
  }

  /** The items at or after position q[k] of every stream k. */
  function Unread(streams: seq<Stream>, q: seq<nat>): multiset<VideoWithTime>
    requires Positions(streams, q)
  {
    if streams == [] then multiset{}
    else
      var k := |streams| - 1;
      Unread(streams[..k], q[..k]) + multiset(streams[k][q[k]..])
  }

  function Zeros(n: nat): (z: seq<nat>)
    ensures |z| == n && forall k :: 0 <= k < n ==> z[k] == 0
  {
    seq(n, _ => 0)
  }

  /** Every item of every stream. */
  function AllItems(streams: seq<Stream>): multiset<VideoWithTime>
  {
    Unread(streams, Zeros(|streams|))
  }

  lemma {:induction false} UnreadAdvance(streams: seq<Stream>, q: seq<nat>, k: nat)
    requires Positions(streams, q) && k < |q| && q[k] < |streams[k]|
    ensures Unread(streams, q) == Unread(streams, q[k := q[k] + 1]) + multiset{streams[k][q[k]]}
  {
    var l := |streams| - 1;
    var q' := q[k := q[k] + 1];
    if k == l {
      assert q'[..l] == q[..l];
      assert streams[l][q[l]..] == [streams[l][q[l]]] + streams[l][q'[l]..];
    } else {
      UnreadAdvance(streams[..l], q[..l], k);
      assert q'[..l] == q[..l][k := q[k] + 1];
    }
  }

  lemma {:induction false} UnreadIsAt(streams: seq<Stream>, q: seq<nat>, x: VideoWithTime) returns (k: nat, j: nat)
    requires Positions(streams, q) && x in Unread(streams, q)
    ensures k < |streams| && q[k] <= j < |streams[k]| && streams[k][j] == x
  {
    var l := |streams| - 1;
    if x in multiset(streams[l][q[l]..]) {
      assert x in streams[l][q[l]..];
      k := l;
      var i :| 0 <= i < |streams[l][q[l]..]| && streams[l][q[l]..][i] == x;
      j := q[l] + i;
    } else {
      k, j := UnreadIsAt(streams[..l], q[..l], x);
    }
  }

  lemma AllItemsStep(streams: seq<Stream>, s: Stream)
    ensures AllItems(streams + [s]) == AllItems(streams) + multiset(s)
  {
    var longer := streams + [s];
    assert longer[..|streams|] == streams;
    assert Zeros(|longer|)[..|streams|] == Zeros(|streams|);
    assert s[0..] == s;
  }

  lemma {:induction false} AllItemsConcat(a: seq<Stream>, b: seq<Stream>)
    ensures AllItems(a + b) == AllItems(a) + AllItems(b)
    decreases |b|
  {
    if b == [] {
      assert a + b == a;
    } else {
      var before, last := b[..|b| - 1], b[|b| - 1];
      AllItemsConcat(a, before);
      assert a + b == (a + before) + [last] && b == before + [last];
      AllItemsStep(a + before, last);
      AllItemsStep(before, last);
    }
  }

  /** Every item comes from one of the streams. */
  lemma ItemIsInStream(streams: seq<Stream>, x: VideoWithTime)
    requires x in AllItems(streams)
    ensures exists p :: 0 <= p < |streams| && x in multiset(streams[p])
  {
    var k, j := UnreadIsAt(streams, Zeros(|streams|), x);
    assert streams[k][j] in multiset(streams[k]);
  }

  // ---------- the specification: sort, dedup, take ----------

  /** `merged` is all items of all streams in non-increasing order of creation time. */
  ghost predicate IsMergeOf(streams: seq<Stream>, merged: seq<VideoWithTime>)
  {
    Sorted(merged) && multiset(merged) == AllItems(streams)
  }

  /** Ids in order of first occurrence. */
  function DedupIds(s: seq<VideoWithTime>): (ids: seq<nat>)
    ensures forall id :: id in ids <==> exists i :: 0 <= i < |s| && s[i].videoID == id
  {
    if s == [] then []
    else
      var before, last := DedupIds(s[..|s| - 1]), s[|s| - 1];
      assert s == s[..|s| - 1] + [last];
      if last.videoID in before then before else before + [last.videoID]
  }

  lemma DedupStep(s: seq<VideoWithTime>, last: VideoWithTime)
    ensures DedupIds(s + [last]) == DedupIds(s) + if last.videoID in DedupIds(s) then [] else [last.videoID]
  {
    assert (s + [last])[..|s|] == s;
  }

  lemma {:induction false} DedupAppend(s: seq<VideoWithTime>, t: seq<VideoWithTime>)
    ensures DedupIds(s) <= DedupIds(s + t)
    decreases |t|
  {
    if t == [] {
      assert s + t == s;
    } else {
      assert (s + t)[..|s + t| - 1] == s + t[..|t| - 1];
      DedupAppend(s, t[..|t| - 1]);
    }
  }

  // ---------- sorting what the limit left unread ----------

  lemma SortedCons(x: VideoWithTime, s: seq<VideoWithTime>)
    requires Sorted(s) && forall y: VideoWithTime :: y in multiset(s) ==> x.createTime >= y.createTime
    ensures Sorted([x] + s)
  {
    forall i | 0 <= i < |s| ensures x.createTime >= s[i].createTime { assert s[i] in multiset(s); }
  }

  lemma {:induction false} InsertExists(t: seq<VideoWithTime>, x: VideoWithTime) returns (s: seq<VideoWithTime>)
    requires Sorted(t)
    ensures multiset(s) == multiset(t) + multiset{x} && Sorted(s)
  {
    if t == [] || x.createTime >= t[0].createTime {
      s := [x] + t;
    } else {
      var rest := t[1..];
      assert t == [t[0]] + rest;
      var r := InsertExists(rest, x);
      s := [t[0]] + r;
      forall y: VideoWithTime | y in multiset(r) ensures t[0].createTime >= y.createTime {
        if y != x { assert y in rest; }
      }
      SortedCons(t[0], r);
    }
  }

  lemma {:induction false} SortExists(m: multiset<VideoWithTime>) returns (s: seq<VideoWithTime>)
    ensures multiset(s) == m && Sorted(s)
    decreases |m|
  {
    if m == multiset{} {
      s := [];
    } else {
      var x :| x in m;
      var t := SortExists(m - multiset{x});
      s := InsertExists(t, x);
    }
  }

  lemma SortedConcat(s: seq<VideoWithTime>, t: seq<VideoWithTime>)
    requires Sorted(s) && Sorted(t)
    requires forall i, j :: 0 <= i < |s| && 0 <= j < |t| ==> s[i].createTime >= t[j].createTime
    ensures Sorted(s + t)
  {
  }

  // ---------- the merge loop ----------

  predicate DistinctCursors(cursors: seq<StreamCursor>)
  {
    forall i, j :: 0 <= i < j < |cursors| ==> cursors[i] != cursors[j]
  }

  function StreamsOf(cursors: seq<StreamCursor>): (streams: seq<Stream>)
    ensures |streams| == |cursors|
    ensures forall k :: 0 <= k < |cursors| ==> streams[k] == cursors[k].items
  {
    seq(|cursors|, k requires 0 <= k < |cursors| => cursors[k].items)
  }

  /** The heads of the unfinished streams, one entry a stream. */
  ghost function Heads(cursors: seq<StreamCursor>, q: seq<nat>): set<MergeItem>
    requires |q| == |cursors|
  {
    set k | 0 <= k < |cursors| && q[k] < |cursors[k].items| :: MergeItem(cursors[k].items[q[k]], cursors[k])
  }

  /** The invariant of the merge loop. Position q[k] of stream k is the first not yet popped:
      popped and remaining items make up the input, and every popped item is at least as new
      as the head of every stream. */
  ghost predicate Merging(streams: seq<Stream>, q: seq<nat>, popped: seq<VideoWithTime>)
  {
    && Positions(streams, q)
    && multiset(popped) + Unread(streams, q) == AllItems(streams)
    && Sorted(popped)
    && (forall i, k :: 0 <= i < |popped| && 0 <= k < |q| && q[k] < |streams[k]| ==>
          popped[i].createTime >= streams[k][q[k]].createTime)
  }

  predicate AllSorted(streams: seq<Stream>) { forall k :: 0 <= k < |streams| ==> Sorted(streams[k]) }

  /** Each cursor stands just behind the head it lent to the heap. */
  ghost predicate BehindHeads(cursors: seq<StreamCursor>, q: seq<nat>)
    reads cursors
  {
    |q| == |cursors|
    && forall k :: 0 <= k < |cursors| ==> cursors[k].pos == if q[k] < |cursors[k].items| then q[k] + 1 else q[k]
  }

  lemma HeadsAdvance(cursors: seq<StreamCursor>, q: seq<nat>, k: nat)
    requires DistinctCursors(cursors) && |q| == |cursors| && k < |q| && q[k] < |cursors[k].items|
    ensures var head := MergeItem(cursors[k].items[q[k]], cursors[k]);
            var after := Heads(cursors, q[k := q[k] + 1]);
            && head in Heads(cursors, q)
            && multiset(after) == if q[k] + 1 < |cursors[k].items|
                 then multiset(Heads(cursors, q)) - multiset{head} + multiset{MergeItem(cursors[k].items[q[k] + 1], cursors[k])}
                 else multiset(Heads(cursors, q)) - multiset{head}
  {
    var head := MergeItem(cursors[k].items[q[k]], cursors[k]);
    var rest := Heads(cursors, q) - {head};
    var q' := q[k := q[k] + 1];
    forall x | x in rest ensures x in Heads(cursors, q') && x.cursor != cursors[k] {
      var i :| 0 <= i < |cursors| && q[i] < |cursors[i].items| && x == MergeItem(cursors[i].items[q[i]], cursors[i]);
      assert i != k && q'[i] == q[i];
    }
    forall x | x in Heads(cursors, q') && x.cursor != cursors[k] ensures x in rest {
      var i :| 0 <= i < |cursors| && q'[i] < |cursors[i].items| && x == MergeItem(cursors[i].items[q'[i]], cursors[i]);
      assert i != k && q'[i] == q[i];
    }
    if q'[k] < |cursors[k].items| {
      var next := MergeItem(cursors[k].items[q'[k]], cursors[k]);
      assert next in Heads(cursors, q') && next !in rest;
      forall x | x in Heads(cursors, q') && x.cursor == cursors[k] ensures x == next {
        var i :| 0 <= i < |cursors| && q'[i] < |cursors[i].items| && x == MergeItem(cursors[i].items[q'[i]], cursors[i]);
        assert i == k;
      }
      assert Heads(cursors, q') == rest + {next};
    } else {
      forall x | x in Heads(cursors, q') ensures x.cursor != cursors[k] {
        var i :| 0 <= i < |cursors| && q'[i] < |cursors[i].items| && x == MergeItem(cursors[i].items[q'[i]], cursors[i]);
      }
      assert Heads(cursors, q') == rest;
    }
    assert head in Heads(cursors, q);
  }

  /** Stopping at any point of the loop, the popped items begin some full merge. */
  lemma Completion(streams: seq<Stream>, q: seq<nat>, popped: seq<VideoWithTime>) returns (rest: seq<VideoWithTime>)
    requires Merging(streams, q, popped) && AllSorted(streams)
    ensures IsMergeOf(streams, popped + rest)
    ensures (forall k :: 0 <= k < |q| ==> q[k] == |streams[k]|) ==> rest == []
  {
    rest := SortExists(Unread(streams, q));
    forall i, j | 0 <= i < |popped| && 0 <= j < |rest| ensures popped[i].createTime >= rest[j].createTime {
      assert rest[j] in multiset(rest);
      var k, l := UnreadIsAt(streams, q, rest[j]);
    }
    SortedConcat(popped, rest);
    if rest != [] {
      assert rest[0] in multiset(rest);
      var k, l := UnreadIsAt(streams, q, rest[0]);
    }
  }

  /** Positions while the heap is being filled: the first i cursors have lent their heads. */
  ghost predicate Filled(cursors: seq<StreamCursor>, i: nat)
    reads cursors
  {
    forall k :: 0 <= k < |cursors| ==> cursors[k].pos == if k < i && cursors[k].items != [] then 1 else 0
  }

  /** Load one stream's first item, if it has one, into the heap. */
  method Load(h: MergeHeap, cursors: seq<StreamCursor>, i: nat)
    requires DistinctCursors(cursors) && i < |cursors| && h.Valid() && Filled(cursors, i)
    modifies h, h.data, cursors[i]
    ensures h.Valid() && (h.data == old(h.data) || fresh(h.data)) && Filled(cursors, i + 1)
    ensures multiset(h.Items()) == old(multiset(h.Items())) +
              if cursors[i].items == [] then multiset{} else multiset{MergeItem(cursors[i].items[0], cursors[i])}
  {
    var cur := cursors[i];
    var item, ok := cur.Peek();
    if ok {
      cur.Advance();
      h.Push(MergeItem(item, cur));
    }
  }

  /** Load every non-empty stream's first item into the heap. */
  method Fill(cursors: seq<StreamCursor>) returns (h: MergeHeap)
    requires DistinctCursors(cursors)
    requires forall k :: 0 <= k < |cursors| ==> cursors[k].pos == 0
    modifies cursors
    ensures fresh(h) && fresh(h.data) && h.Valid()
    ensures multiset(h.Items()) == multiset(Heads(cursors, Zeros(|cursors|)))
    ensures BehindHeads(cursors, Zeros(|cursors|))
  {
    h := new MergeHeap();
    for i := 0 to |cursors|
      invariant fresh(h) && fresh(h.data) && h.Valid()
      invariant multiset(h.Items()) == Lent(cursors, i)
      invariant Filled(cursors, i)
    {
      HeadsGrow(cursors, i);
      Load(h, cursors, i);
    }
    AllLent(cursors);
  }

  /** The heads of the first i streams. */
  ghost function Lent(cursors: seq<StreamCursor>, i: nat): multiset<MergeItem>
    requires i <= |cursors|
  {
    multiset(Heads(cursors[..i], Zeros(i)))
  }

  lemma AllLent(cursors: seq<StreamCursor>)
    ensures Lent(cursors, |cursors|) == multiset(Heads(cursors, Zeros(|cursors|)))
    ensures Filled(cursors, |cursors|) ==> BehindHeads(cursors, Zeros(|cursors|))
  {
    assert cursors[..|cursors|] == cursors;
  }

  lemma HeadsGrow(cursors: seq<StreamCursor>, i: nat)
    requires DistinctCursors(cursors) && i < |cursors|
    ensures Lent(cursors, i + 1) == Lent(cursors, i) +
              if cursors[i].items == [] then multiset{} else multiset{MergeItem(cursors[i].items[0], cursors[i])}
  {
    HeadOfNext(cursors, i);
  }

  lemma HeadOfNext(cursors: seq<StreamCursor>, i: nat)
    requires DistinctCursors(cursors) && i < |cursors|
    ensures forall x :: x in Heads(cursors[..i], Zeros(i)) ==> x.cursor != cursors[i]
    ensures Heads(cursors[..i + 1], Zeros(i + 1)) == Heads(cursors[..i], Zeros(i)) +
              if cursors[i].items == [] then {} else {MergeItem(cursors[i].items[0], cursors[i])}
  {
    var before, after := Heads(cursors[..i], Zeros(i)), Heads(cursors[..i + 1], Zeros(i + 1));
    forall x | x in before ensures x in after && x.cursor != cursors[i] {
      var k :| 0 <= k < i && 0 < |cursors[k].items| && x == MergeItem(cursors[k].items[0], cursors[k]);
      assert cursors[..i + 1][k] == cursors[k];
    }
    forall x | x in after ensures x in before || (cursors[i].items != [] && x == MergeItem(cursors[i].items[0], cursors[i])) {
      var k :| 0 <= k < i + 1 && 0 < |cursors[..i + 1][k].items| && x == MergeItem(cursors[..i + 1][k].items[0], cursors[..i + 1][k]);
      if k < i { assert cursors[..i][k] == cursors[k]; }
    }
    assert cursors[..i + 1][i] == cursors[i];
  }

  /** One turn of the loop: popping head k and moving on in stream k. */
  lemma PopKeepsMerging(streams: seq<Stream>, q: seq<nat>, k: nat, popped: seq<VideoWithTime>)
    requires AllSorted(streams) && Merging(streams, q, popped) && k < |streams| && q[k] < |streams[k]|
    requires forall i :: 0 <= i < |q| && q[i] < |streams[i]| ==> streams[i][q[i]].createTime <= streams[k][q[k]].createTime
    ensures Merging(streams, q[k := q[k] + 1], popped + [streams[k][q[k]]])
    ensures |Unread(streams, q[k := q[k] + 1])| < |Unread(streams, q)|
  {
    UnreadAdvance(streams, q, k);
    PopBounds(streams, q, k, popped);
  }

  lemma PopBounds(streams: seq<Stream>, q: seq<nat>, k: nat, popped: seq<VideoWithTime>)
    requires AllSorted(streams) && Merging(streams, q, popped) && k < |streams| && q[k] < |streams[k]|
    requires forall i :: 0 <= i < |q| && q[i] < |streams[i]| ==> streams[i][q[i]].createTime <= streams[k][q[k]].createTime
    ensures var top, q' := streams[k][q[k]], q[k := q[k] + 1];
            && Sorted(popped + [top])
            && forall i, l :: 0 <= i < |popped + [top]| && 0 <= l < |q'| && q'[l] < |streams[l]| ==>
                 (popped + [top])[i].createTime >= streams[l][q'[l]].createTime
  {
    var q' := q[k := q[k] + 1];
    forall l | 0 <= l < |q'| && q'[l] < |streams[l]| ensures streams[k][q[k]].createTime >= streams[l][q'[l]].createTime { }
    forall i | 0 <= i < |popped| ensures popped[i].createTime >= streams[k][q[k]].createTime { }
  }

  /** The popped entry is a head, and no head is newer. */
  lemma PoppedHead(cursors: seq<StreamCursor>, q: seq<nat>, top: MergeItem) returns (k: nat)
    requires |q| == |cursors| && top in multiset(Heads(cursors, q))
    requires forall x :: x in multiset(Heads(cursors, q)) ==> Time(x) <= Time(top)
    ensures k < |cursors| && q[k] < |cursors[k].items| && top == MergeItem(cursors[k].items[q[k]], cursors[k])
    ensures forall i :: 0 <= i < |q| && q[i] < |cursors[i].items| ==> cursors[i].items[q[i]].createTime <= Time(top)
  {
    k :| 0 <= k < |cursors| && q[k] < |cursors[k].items| && top == MergeItem(cursors[k].items[q[k]], cursors[k]);
    UnfinishedHaveHeads(cursors, q);
    forall i | 0 <= i < |q| && q[i] < |cursors[i].items| ensures cursors[i].items[q[i]].createTime <= Time(top) {
      assert Time(MergeItem(cursors[i].items[q[i]], cursors[i])) <= Time(top);
    }
  }

  lemma UnfinishedHaveHeads(cursors: seq<StreamCursor>, q: seq<nat>)
    requires |q| == |cursors|
    ensures forall k :: 0 <= k < |q| && q[k] < |cursors[k].items| ==>
              MergeItem(cursors[k].items[q[k]], cursors[k]) in multiset(Heads(cursors, q))
  {
  }

  /** Push the next item of stream k, if it has one, off its cursor. */
  method Refill(h: MergeHeap, cursor: StreamCursor, ghost cursors: seq<StreamCursor>, ghost q: seq<nat>, ghost k: nat)
    requires DistinctCursors(cursors) && h.Valid() && BehindHeads(cursors, q)
    requires k < |cursors| && cursor == cursors[k] && q[k] < |cursor.items|
    modifies h, h.data, cursor
    ensures h.Valid() && (h.data == old(h.data) || fresh(h.data))
    ensures BehindHeads(cursors, q[k := q[k] + 1])
    ensures multiset(h.Items()) == old(multiset(h.Items())) +
              if q[k] + 1 < |cursor.items| then multiset{MergeItem(cursor.items[q[k] + 1], cursor)} else multiset{}
  {
    var next, ok := cursor.Peek();
    if ok {
      cursor.Advance();
      h.Push(MergeItem(next, cursor));
    }
  }

  /** The heap holds one entry for each unfinished stream: its head. */
  ghost predicate HoldsHeads(h: MergeHeap, cursors: seq<StreamCursor>, q: seq<nat>)
    reads h, h.data, cursors
  {
    h.Valid() && BehindHeads(cursors, q) && multiset(h.Items()) == multiset(Heads(cursors, q))
  }

  /** Pop the newest head and push its successor from the same stream. */
  method PopAndRefill(h: MergeHeap, cursors: seq<StreamCursor>, ghost q: seq<nat>)
    returns (top: VideoWithTime, ghost k: nat)
    requires DistinctCursors(cursors) && HoldsHeads(h, cursors, q) && h.n > 0
    modifies h, h.data, cursors
    ensures HoldsHeads(h, cursors, if k < |q| then q[k := q[k] + 1] else q) && (h.data == old(h.data) || fresh(h.data))
    ensures k < |cursors| && q[k] < |cursors[k].items| && top == cursors[k].items[q[k]]
    ensures forall i :: 0 <= i < |q| && q[i] < |cursors[i].items| ==> cursors[i].items[q[i]].createTime <= top.createTime
  {
    var item := h.Pop();
    k := PoppedHead(cursors, q, item);
    HeadsAdvance(cursors, q, k);
    top := item.video;
    Refill(h, item.cursor, cursors, q, k);
  }

  ghost predicate SameIds(seen: set<nat>, result: seq<nat>) { forall id :: id in seen <==> id in result }

  /** One turn of the loop: pop, refill, and keep the id unless it was seen. */
  method Turn(h: MergeHeap, cursors: seq<StreamCursor>, seen0: set<nat>, result0: seq<nat>,
      ghost q0: seq<nat>, ghost popped0: seq<VideoWithTime>)
    returns (seen: set<nat>, result: seq<nat>, ghost q: seq<nat>, ghost popped: seq<VideoWithTime>)
    requires DistinctCursors(cursors) && AllSorted(StreamsOf(cursors)) && h.n > 0
    requires HoldsHeads(h, cursors, q0) && Merging(StreamsOf(cursors), q0, popped0)
    requires result0 == DedupIds(popped0) && SameIds(seen0, result0)
    modifies h, h.data, cursors
    ensures (h.data == old(h.data) || fresh(h.data)) && HoldsHeads(h, cursors, q)
    ensures Merging(StreamsOf(cursors), q, popped) && |Unread(StreamsOf(cursors), q)| < |Unread(StreamsOf(cursors), q0)|
    ensures result == DedupIds(popped) && SameIds(seen, result) && |result| <= |result0| + 1
  {
    var top;
    ghost var k;
    top, k := PopAndRefill(h, cursors, q0);
    PopKeepsMerging(StreamsOf(cursors), q0, k, popped0);
    DedupStep(popped0, top);
    popped, q := popped0 + [top], q0[k := q0[k] + 1];
    seen, result := seen0, result0;
    if top.videoID !in seen {
      seen := seen + {top.videoID};
      result := result + [top.videoID];
    }
  }

  /** The loop of the merge: pop until the heap is empty or the page is full. */
  method MergeLoop(cursors: seq<StreamCursor>, limit: nat)
    returns (result: seq<nat>, ghost q: seq<nat>, ghost popped: seq<VideoWithTime>)
    requires DistinctCursors(cursors) && AllSorted(StreamsOf(cursors))
    requires forall k :: 0 <= k < |cursors| ==> cursors[k].pos == 0
    modifies cursors
    ensures Merging(StreamsOf(cursors), q, popped) && result == DedupIds(popped) && |result| <= limit
    ensures |result| == limit || forall k :: 0 <= k < |cursors| ==> q[k] >= |cursors[k].items|
  {
    var h := Fill(cursors);
    q, popped := Zeros(|cursors|), [];
    var seen: set<nat> := {};
    result := [];
    while h.n > 0 && |result| < limit
      invariant fresh(h) && fresh(h.data) && HoldsHeads(h, cursors, q)
      invariant Merging(StreamsOf(cursors), q, popped)
      invariant result == DedupIds(popped) && |result| <= limit && SameIds(seen, result)
      decreases |Unread(StreamsOf(cursors), q)|
    {
      seen, result, q, popped := Turn(h, cursors, seen, result, q, popped);
    }
    if h.n == 0 { HeapEmpty(h, cursors, q); }
  }

  /** The k-way merge: some merge of all streams, without repeated ids, cut at the limit. */
  method MergeAndDedup(cursors: seq<StreamCursor>, limit: nat) returns (result: seq<nat>)
    requires DistinctCursors(cursors) && AllSorted(StreamsOf(cursors))
    requires forall k :: 0 <= k < |cursors| ==> cursors[k].pos == 0
    modifies cursors
    ensures exists merged :: IsMergeOf(StreamsOf(cursors), merged) && result == Take(DedupIds(merged), limit)
  {
    ghost var q, popped;
    result, q, popped := MergeLoop(cursors, limit);
    ghost var rest := Completion(StreamsOf(cursors), q, popped);
    LimitReached(popped, rest, limit, result);
  }

  lemma LimitReached(popped: seq<VideoWithTime>, rest: seq<VideoWithTime>, limit: nat, result: seq<nat>)
    requires result == DedupIds(popped) && |result| <= limit
    ensures |result| == limit || rest == [] ==> result == Take(DedupIds(popped + rest), limit)
  {
    DedupAppend(popped, rest);
    if rest == [] { assert popped + rest == popped; }
  }

  lemma HeapEmpty(h: MergeHeap, cursors: seq<StreamCursor>, q: seq<nat>)
    requires HoldsHeads(h, cursors, q) && h.n == 0
    ensures forall k :: 0 <= k < |q| ==> q[k] >= |cursors[k].items|
  {
    assert multiset(h.Items()) == multiset{};
    UnfinishedHaveHeads(cursors, q);
  }
}
