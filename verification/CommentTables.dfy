/** Publishing a comment and raising the video's popularity: two separate statements in the
    worker, one transaction in the API's fallback. */
module CommentTables {
  import opened LikeTables

  datatype Comment = Comment(username: string, videoID: nat, authorID: nat, content: string)

  datatype PublishFaults = PublishFaults(lookup: bool, insert: bool, count: bool, commit: bool)

  class CommentDatabase {
    var tables: Tables
    var comments: multiset<Comment>

    constructor (tables: Tables)
      ensures this.tables == tables && comments == multiset{}
    {
      this.tables, comments := tables, multiset{};
    }

    /** The worker's publish. It is not a transaction: when only the second statement fails
        the comment stays, the delivery is not acknowledged, and the redelivery inserts the
        comment again. */
    method ApplyPublish(c: Comment, f: PublishFaults) returns (acked: bool)
      modifies this
      ensures comments == old(comments) +
                if !f.lookup && c.videoID in old(tables.videos) && !f.insert then multiset{c} else multiset{}
      ensures tables ==
                if !f.lookup && c.videoID in old(tables.videos) && !f.insert && !f.count then WithPopularity(old(tables), c.videoID, 1)
                else old(tables)
      ensures acked == (!f.lookup && (c.videoID !in old(tables.videos) || (!f.insert && !f.count)))
    {
      if f.lookup {
        return false;
      }
      if c.videoID !in tables.videos {
        return true;
      }
      if f.insert {
        return false;
      }
      comments := comments + multiset{c};
      if f.count {
        return false;
      }
      tables := WithPopularity(tables, c.videoID, 1);
      acked := true;
    }

    /** The API's fallback: existence check, insert and increment in one transaction. */
    method PublishFallback(c: Comment, f: PublishFaults) returns (ok: bool)
      modifies this
      ensures ok == (!f.lookup && c.videoID in old(tables.videos) && !f.insert && !f.count && !f.commit)
      ensures comments == old(comments) + if ok then multiset{c} else multiset{}
      ensures tables == if ok then WithPopularity(old(tables), c.videoID, 1) else old(tables)
    {
      var tablesBefore, commentsBefore := tables, comments;
      ok := !f.lookup && c.videoID in tables.videos && !f.insert;
      if ok {
        comments := comments + multiset{c};
        ok := !f.count;
        if ok {
          tables := WithPopularity(tables, c.videoID, 1);
        }
      }
      ok := ok && !f.commit;
      if !ok {
        tables, comments := tablesBefore, commentsBefore;
      }
    }

    /** One delivery with what happens around it. */
    method Attempt(c: Comment, d: Delivery) returns (settled: bool)
      modifies this
      ensures c.videoID in tables.videos <==> c.videoID in old(tables.videos) && !d.deleted
      ensures comments == old(comments) +
                if c.videoID in tables.videos && !d.faults.lookup && !d.faults.insert then multiset{c} else multiset{}
      ensures settled == (!d.ackLost && !d.faults.lookup && (c.videoID in tables.videos ==> !d.faults.insert && !d.faults.count))
    {
      if d.deleted {
        tables := tables.(videos := tables.videos - {c.videoID});
      }
      var acked := ApplyPublish(c, d.faults);
      settled := acked && !d.ackLost;
    }

    /** The deliveries of one event, until one is acknowledged and the Ack gets through. */
    method Redeliver(c: Comment, ds: seq<Delivery>) returns (n: nat)
      modifies this
      ensures n <= |ds|
      ensures var exists0 := c.videoID in old(tables.videos);
              && Unsettled(exists0, ds, n)
              && (n < |ds| ==> n > 0 && Settles(exists0, ds[..n]))
              && comments == old(comments) + Copies(c, Stored(exists0, ds[..n]))
    {
      n := 0;
      ghost var exists0 := c.videoID in tables.videos;
      var settled := false;
      while n < |ds| && !settled
        invariant n <= |ds|
        invariant c.videoID in tables.videos <==> Present(exists0, ds[..n])
        invariant Unsettled(exists0, ds, n)
        invariant settled <==> n > 0 && Settles(exists0, ds[..n])
        invariant comments == old(comments) + Copies(c, Stored(exists0, ds[..n]))
      {
        OneMoreDelivery(exists0, ds, n);
        settled := Attempt(c, ds[n]);
        n := n + 1;
      }
    }
  }

  /** None of the deliveries before the n-th settled the event. */
  predicate Unsettled(exists0: bool, ds: seq<Delivery>, n: nat)
    requires n <= |ds|
  {
    forall i :: 0 < i < n ==> !Settles(exists0, ds[..i])
  }

  lemma OneMoreDelivery(exists0: bool, ds: seq<Delivery>, n: nat)
    requires n < |ds|
    ensures var d, there := ds[n], Present(exists0, ds[..n]) && !ds[n].deleted;
            && Present(exists0, ds[..n + 1]) == there
            && Inserts(exists0, ds[..n + 1]) == (there && !d.faults.lookup && !d.faults.insert)
            && Settles(exists0, ds[..n + 1]) == (!d.ackLost && !d.faults.lookup && (there ==> !d.faults.insert && !d.faults.count))
            && Stored(exists0, ds[..n + 1]) == Stored(exists0, ds[..n]) + if Inserts(exists0, ds[..n + 1]) then 1 else 0
  {
    var longer := ds[..n + 1];
    assert longer[..n] == ds[..n] && longer[n] == ds[n];
    assert forall i :: 0 <= i < n ==> longer[i] == ds[..n][i];
  }

  // ---------- how often one event is stored ----------

  /** What happens around one delivery: the video may be deleted just before it, each of the
      worker's statements may fail, and the Ack may be lost. */
  datatype Delivery = Delivery(deleted: bool, faults: PublishFaults, ackLost: bool)

  /** Is the video still there at the last of these deliveries? */
  predicate Present(exists0: bool, ds: seq<Delivery>) { exists0 && forall i :: 0 <= i < |ds| ==> !ds[i].deleted }

  /** The last delivery inserts the comment. */
  predicate Inserts(exists0: bool, ds: seq<Delivery>)
    requires ds != []
  {
    var f := ds[|ds| - 1].faults;
    Present(exists0, ds) && !f.lookup && !f.insert
  }

  /** The last delivery is acknowledged, and RabbitMQ hears of it. */
  predicate Settles(exists0: bool, ds: seq<Delivery>)
    requires ds != []
  {
    var d := ds[|ds| - 1];
    !d.ackLost && !d.faults.lookup && (Present(exists0, ds) ==> !d.faults.insert && !d.faults.count)
  }

  /** The number of deliveries that reached the insert. */
  function Stored(exists0: bool, ds: seq<Delivery>): nat
  {
    if ds == [] then 0 else Stored(exists0, ds[..|ds| - 1]) + if Inserts(exists0, ds) then 1 else 0
  }

  function Copies(c: Comment, n: nat): multiset<Comment> { multiset{}[c := n] }

  lemma {:induction false} StoredIsZero(exists0: bool, ds: seq<Delivery>)
    ensures Stored(exists0, ds) == 0 <==> forall i :: 0 < i <= |ds| ==> !Inserts(exists0, ds[..i])
    decreases |ds|
  {
    if ds != [] {
      var before := ds[..|ds| - 1];
      StoredIsZero(exists0, before);
      assert ds[..|ds|] == ds;
      assert forall i :: 0 < i < |ds| ==> ds[..i] == before[..i];
    }
  }

  /** An event whose video lives is stored exactly once if and only if every delivery before
      the settling one failed in the lookup or in the insert. A failed increment or a lost Ack
      after an insert is what stores it again. */
  lemma StoredOnceExactly(exists0: bool, ds: seq<Delivery>)
    requires ds != [] && Settles(exists0, ds) && Present(exists0, ds)
    ensures Stored(exists0, ds) == 1 <==> forall i :: 0 <= i < |ds| - 1 ==> ds[i].faults.lookup || ds[i].faults.insert
  {
    var before := ds[..|ds| - 1];
    StoredIsZero(exists0, before);
    forall i | 0 < i <= |before| ensures Inserts(exists0, before[..i]) <==> !ds[i - 1].faults.lookup && !ds[i - 1].faults.insert {
      assert before[..i][|before[..i]| - 1] == ds[i - 1];
    }
    forall i | 0 <= i < |before| ensures Inserts(exists0, before[..i + 1]) <==> !ds[i].faults.lookup && !ds[i].faults.insert { }
  }

  /** The number of deliveries that raised popularity. */
  function Counted(exists0: bool, ds: seq<Delivery>): nat
  {
    if ds == [] then 0
    else Counted(exists0, ds[..|ds| - 1]) + if Inserts(exists0, ds) && !ds[|ds| - 1].faults.count then 1 else 0
  }

  /** Popularity is never raised without a copy stored, and is raised more than once only
      through lost Acks. */
  lemma {:induction false} CountedIsAtMostStored(exists0: bool, ds: seq<Delivery>)
    ensures Counted(exists0, ds) <= Stored(exists0, ds)
    ensures (forall i :: 0 < i <= |ds| ==> !Settles(exists0, ds[..i])) && (forall i :: 0 <= i < |ds| ==> !ds[i].ackLost) ==>
              Counted(exists0, ds) == 0
    decreases |ds|
  {
    if ds != [] {
      var before := ds[..|ds| - 1];
      CountedIsAtMostStored(exists0, before);
      assert ds[..|ds|] == ds;
      assert forall i :: 0 < i < |ds| ==> ds[..i] == before[..i];
    }
  }
}
