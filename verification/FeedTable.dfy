/** The videos table and the ordered, limited queries over it. */
module FeedTable {
  import opened Collections
  import opened Wrappers

  datatype Video = Video(id: nat, authorID: nat, createTime: int, likesCount: int, popularity: int)

  /** Primary keys are unique and start at 1. */
  predicate ValidRows(rows: set<Video>)
  {
    && (forall v :: v in rows ==> v.id >= 1)
    && (forall v, w :: v in rows && w in rows && v.id == w.id ==> v == w)
  }

  /** No two rows share a creation millisecond. */
  predicate DistinctTimes(rows: set<Video>)
  {
    forall v, w :: v in rows && w in rows && v.createTime == w.createTime ==> v == w
  }

  // ---------- ORDER BY ... DESC ----------

  /** create_time; likes_count, id; popularity, create_time, id. Where SQL leaves ties open
      (equal creation times) the greater id comes first. */
  datatype Order = ByTime | ByLikes | ByPopularity

  datatype Key = Key(a: int, b: int, c: int)

  function KeyOf(o: Order, v: Video): Key
  {
    match o
    case ByTime => Key(v.createTime, v.id, 0)
    case ByLikes => Key(v.likesCount, v.id, 0)
    case ByPopularity => Key(v.popularity, v.createTime, v.id)
  }

  predicate KeyLess(x: Key, y: Key)
  {
    x.a < y.a || (x.a == y.a && (x.b < y.b || (x.b == y.b && x.c < y.c)))
  }

  predicate Precedes(o: Order, v: Video, w: Video) { KeyLess(KeyOf(o, w), KeyOf(o, v)) }

  lemma PrecedesTransitive(o: Order, u: Video, v: Video, w: Video)
    requires Precedes(o, u, v) && Precedes(o, v, w)
    ensures Precedes(o, u, w)
  {
  }

  lemma PrecedesTotal(o: Order, v: Video, w: Video)
    requires v.id != w.id
    ensures Precedes(o, v, w) != Precedes(o, w, v)
  {
  }

  predicate IsFirst(o: Order, rows: set<Video>, v: Video)
  {
    v in rows && forall w :: w in rows && w != v ==> Precedes(o, v, w)
  }

  lemma {:induction false} FirstExists(o: Order, rows: set<Video>)
    requires ValidRows(rows) && rows != {}
    ensures exists v :: IsFirst(o, rows, v)
  {
    var v :| v in rows;
    var rest := rows - {v};
    if rest == {} {
      assert rows == rest + {v};
      assert IsFirst(o, rows, v);
    } else {
      FirstExists(o, rest);
      var w :| IsFirst(o, rest, w);
      assert v.id != w.id;
      PrecedesTotal(o, v, w);
      if Precedes(o, v, w) {
        forall x | x in rows && x != v ensures Precedes(o, v, x) {
          if x != w { PrecedesTransitive(o, v, w, x); }
        }
        assert IsFirst(o, rows, v);
      } else {
        assert IsFirst(o, rows, w);
      }
    }
  }

  function First(o: Order, rows: set<Video>): (v: Video)
    requires ValidRows(rows) && rows != {}
    ensures IsFirst(o, rows, v)
  {
    FirstExists(o, rows);
    var v :| IsFirst(o, rows, v);
    v
  }

  /** All rows in the order of `o`, each once. */
  function SortDesc(o: Order, rows: set<Video>): (s: seq<Video>)
    requires ValidRows(rows)
    ensures |s| == |rows| && forall v :: v in s <==> v in rows
  {
    if rows == {} then [] else [First(o, rows)] + SortDesc(o, rows - {First(o, rows)})
  }

  predicate InOrder(o: Order, s: seq<Video>)
  {
    forall i, j :: 0 <= i < j < |s| ==> Precedes(o, s[i], s[j])
  }

  lemma InOrderCons(o: Order, v: Video, t: seq<Video>)
    requires InOrder(o, t) && forall w :: w in t ==> Precedes(o, v, w)
    ensures InOrder(o, [v] + t)
  {
    var s := [v] + t;
    forall i, j | 0 <= i < j < |s| ensures Precedes(o, s[i], s[j]) {
      assert s[j] == t[j - 1] && t[j - 1] in t;
      if i > 0 { assert s[i] == t[i - 1]; }
    }
  }

  lemma {:induction false} SortDescInOrder(o: Order, rows: set<Video>)
    requires ValidRows(rows)
    ensures InOrder(o, SortDesc(o, rows))
  {
    if rows != {} {
      var v := First(o, rows);
      SortDescInOrder(o, rows - {v});
      InOrderCons(o, v, SortDesc(o, rows - {v}));
    }
  }

  lemma FirstUnique(o: Order, rows: set<Video>, v: Video, w: Video)
    requires IsFirst(o, rows, v) && IsFirst(o, rows, w)
    ensures v == w
  {
  }

  /** `s` lists exactly `rows`, in the order of `o`. */
  ghost predicate Lists(o: Order, s: seq<Video>, rows: set<Video>)
  {
    InOrder(o, s) && forall v :: v in s <==> v in rows
  }

  lemma ListsTail(o: Order, s: seq<Video>, rows: set<Video>)
    requires Lists(o, s, rows) && s != []
    ensures IsFirst(o, rows, s[0]) && Lists(o, s[1..], rows - {s[0]})
  {
    var rest := s[1..];
    forall w | w in rows && w != s[0] ensures Precedes(o, s[0], w) && w in rest {
      var i :| 0 <= i < |s| && s[i] == w;
      assert rest[i - 1] == w;
    }
    forall w | w in rest ensures w in rows && w != s[0] {
      var i :| 0 <= i < |rest| && rest[i] == w;
      assert s[i + 1] == w && Precedes(o, s[0], s[i + 1]);
    }
    forall i, j | 0 <= i < j < |rest| ensures Precedes(o, rest[i], rest[j]) {
      assert Precedes(o, s[i + 1], s[j + 1]);
    }
  }

  /** An ordered list of exactly the rows is the sorted list. */
  lemma SortDescStep(o: Order, rows: set<Video>, first: Video)
    requires ValidRows(rows) && IsFirst(o, rows, first)
    ensures SortDesc(o, rows) == [first] + SortDesc(o, rows - {first})
  {
    FirstUnique(o, rows, first, First(o, rows));
  }

  lemma {:induction false} SortDescUnique(o: Order, rows: set<Video>, s: seq<Video>)
    requires ValidRows(rows) && Lists(o, s, rows)
    ensures s == SortDesc(o, rows)
    decreases |s|
  {
    if s == [] {
      assert rows == {};
    } else {
      ListsTail(o, s, rows);
      SortDescStep(o, rows, s[0]);
      SortDescUnique(o, rows - {s[0]}, s[1..]);
      assert s == [s[0]] + s[1..];
    }
  }

  lemma SortDescLists(o: Order, rows: set<Video>)
    requires ValidRows(rows)
    ensures Lists(o, SortDesc(o, rows), rows)
  {
    SortDescInOrder(o, rows);
  }

  lemma ListsConcat(o: Order, s: seq<Video>, high: set<Video>, t: seq<Video>, low: set<Video>)
    requires Lists(o, s, high) && Lists(o, t, low)
    requires forall v, w :: v in high && w in low ==> Precedes(o, v, w)
    ensures Lists(o, s + t, high + low)
  {
    forall i, j | 0 <= i < j < |s + t| ensures Precedes(o, (s + t)[i], (s + t)[j]) {
      if i < |s| <= j { assert (s + t)[i] in high && (s + t)[j] in low; }
    }
  }

  /** Sorting can be done in two parts when one part precedes the other. */
  lemma SortSplit(o: Order, high: set<Video>, low: set<Video>)
    requires ValidRows(high + low)
    requires forall v, w :: v in high && w in low ==> Precedes(o, v, w)
    ensures ValidRows(high) && ValidRows(low)
    ensures SortDesc(o, high + low) == SortDesc(o, high) + SortDesc(o, low)
  {
    SortDescLists(o, high);
    SortDescLists(o, low);
    ListsConcat(o, SortDesc(o, high), high, SortDesc(o, low), low);
    SortDescUnique(o, high + low, SortDesc(o, high) + SortDesc(o, low));
  }

  // ---------- the repository's queries ----------

  predicate TimeBefore(v: Video, before: Option<int>) { before.Some? ==> v.createTime < before.value }

  function OlderThan(rows: set<Video>, before: Option<int>): set<Video>
  {
    set v | v in rows && TimeBefore(v, before)
  }

  /** create_time < before, ORDER BY create_time DESC. */
  function ListLatest(rows: set<Video>, limit: nat, before: Option<int>): seq<Video>
    requires ValidRows(rows)
  {
    Take(SortDesc(ByTime, OlderThan(rows, before)), limit)
  }

  datatype LikesCountCursor = LikesCountCursor(likesCount: int, id: nat)

  function BelowLikesCursor(rows: set<Video>, cursor: Option<LikesCountCursor>): set<Video>
  {
    set v | v in rows &&
      (cursor.Some? ==> v.likesCount < cursor.value.likesCount ||
                        (v.likesCount == cursor.value.likesCount && v.id < cursor.value.id))
  }

  function ListLikesCountWithCursor(rows: set<Video>, limit: nat, cursor: Option<LikesCountCursor>): seq<Video>
    requires ValidRows(rows)
  {
    Take(SortDesc(ByLikes, BelowLikesCursor(rows, cursor)), limit)
  }

  /** The three cursor fields as the service passes them; no time or a zero id means no cursor. */
  datatype PopularityCursor = PopularityCursor(popularity: int, time: Option<int>, id: nat)

  const NO_POPULARITY_CURSOR := PopularityCursor(0, None, 0)

  function BelowPopularityCursor(rows: set<Video>, c: PopularityCursor): set<Video>
  {
    set v | v in rows &&
      (c.time.Some? && c.id > 0 ==>
         v.popularity < c.popularity ||
         (v.popularity == c.popularity && v.createTime < c.time.value) ||
         (v.popularity == c.popularity && v.createTime == c.time.value && v.id < c.id))
  }

  function ListByPopularity(rows: set<Video>, limit: nat, c: PopularityCursor): seq<Video>
    requires ValidRows(rows)
  {
    Take(SortDesc(ByPopularity, BelowPopularityCursor(rows, c)), limit)
  }

  /** GetByIDs then re-ordering: the rows of the given ids, in the order asked for. */
  function RowsInOrder(rows: set<Video>, ids: seq<nat>): seq<Video>
    requires ValidRows(rows)
  {
    if ids == [] then []
    else
      var id := ids[|ids| - 1];
      RowsInOrder(rows, ids[..|ids| - 1]) +
      if Exists(rows, id) then [RowOf(rows, id)] else []
  }

  predicate Exists(rows: set<Video>, id: nat) { exists v :: v in rows && v.id == id }

  function RowOf(rows: set<Video>, id: nat): (v: Video)
    requires ValidRows(rows) && Exists(rows, id)
    ensures v in rows && v.id == id
  {
    var v :| v in rows && v.id == id;
    v
  }
}
