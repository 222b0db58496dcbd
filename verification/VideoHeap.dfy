/** The max-heap of the k-way merge: `mergeHeap` together with the sift-up and sift-down of
    Go's `container/heap` that drive it. The slice is an array that grows on append. */
module VideoHeap {

  /** A video id with its creation time in milliseconds. */
  datatype VideoWithTime = VideoWithTime(videoID: nat, createTime: int)

  /** Iterator over one sorted stream. */
  class StreamCursor {
    const items: seq<VideoWithTime>
    var pos: nat

    constructor (items: seq<VideoWithTime>)
      ensures this.items == items && pos == 0
    {
      this.items := items;
      pos := 0;
    }

    /** The next item, or ok == false at the end of the stream. */
    method Peek() returns (video: VideoWithTime, ok: bool)
      ensures ok == (pos < |items|)
      ensures ok ==> video == items[pos]
    {
      if pos >= |items| {
        return VideoWithTime(0, 0), false;
      }
      return items[pos], true;
    }

    method Advance()
      modifies this`pos
      ensures pos == old(pos) + 1
    {
      pos := pos + 1;
    }
  }

  /** A heap entry: the head of one stream and the cursor it came from. */
  datatype MergeItem = MergeItem(video: VideoWithTime, cursor: StreamCursor)

  function Time(x: MergeItem): int { x.video.createTime }

  /** Go truncates (0 - 1) / 2 to 0, so the root is its own parent. */
  function Parent(j: nat): (p: nat)
    ensures p <= j && (j > 0 ==> p < j)
  {
    if j == 0 then 0 else (j - 1) / 2
  }

  predicate HeapAt(s: seq<MergeItem>, j: nat)
    requires j < |s|
  {
    Time(s[j]) <= Time(s[Parent(j)])
  }

  /** Every entry is at most as new as its parent. */
  predicate IsHeap(s: seq<MergeItem>) { forall j: nat :: j < |s| ==> HeapAt(s, j) }

  lemma {:induction false} RootIsNewest(s: seq<MergeItem>, j: nat)
    requires IsHeap(s) && j < |s|
    ensures Time(s[j]) <= Time(s[0])
    decreases j
  {
    assert HeapAt(s, j);
    if j > 0 { RootIsNewest(s, Parent(j)); }
  }

  /** Exchanging two entries. */
  function Swapped(s: seq<MergeItem>, i: nat, j: nat): (r: seq<MergeItem>)
    requires i < |s| && j < |s|
    ensures |r| == |s|
  {
    s[i := s[j]][j := s[i]]
  }

  lemma SwappedIsPermutation(s: seq<MergeItem>, i: nat, j: nat)
    requires i < |s| && j < |s|
    ensures multiset(Swapped(s, i, j)) == multiset(s)
  {
  }

  /** Sift-up at work: only entry `j` may be newer than its parent, and its children already
      fit under that parent. */
  predicate AlmostUp(s: seq<MergeItem>, j: nat)
  {
    && j < |s|
    && (forall k: nat :: k < |s| && k != j ==> HeapAt(s, k))
    && (forall k: nat :: k < |s| && k > 0 && Parent(k) == j ==> Time(s[k]) <= Time(s[Parent(j)]))
  }

  lemma UpStep(s: seq<MergeItem>, j: nat)
    requires AlmostUp(s, j) && !HeapAt(s, j)
    ensures AlmostUp(Swapped(s, Parent(j), j), Parent(j))
  {
    var i := Parent(j);
    var r := Swapped(s, i, j);
    assert HeapAt(s, i) || i == j;
    forall k: nat | k < |r| && k != i ensures HeapAt(r, k) {
      if k != j { assert HeapAt(s, k); }
    }
    forall k: nat | k < |r| && k > 0 && Parent(k) == i ensures Time(r[k]) <= Time(r[Parent(i)]) {
      if k != j { assert HeapAt(s, k); }
    }
  }

  /** Sift-down at work in the first `n` entries: only the children of `i` may be newer than
      their parent, and they already fit under the parent of `i`. */
  predicate AlmostDown(s: seq<MergeItem>, i: nat)
  {
    && (forall k: nat :: k < |s| && (k == 0 || Parent(k) != i) ==> HeapAt(s, k))
    && (forall k: nat :: k < |s| && k > 0 && i < |s| && Parent(k) == i ==> Time(s[k]) <= Time(s[Parent(i)]) || i == 0)
  }

  /** `j` is the newer child of `i`. */
  predicate NewerChild(s: seq<MergeItem>, i: nat, j: nat)
  {
    && 0 < j < |s| && Parent(j) == i
    && forall k: nat :: 0 < k < |s| && Parent(k) == i ==> Time(s[k]) <= Time(s[j])
  }

  lemma DownStep(s: seq<MergeItem>, i: nat, j: nat)
    requires i < |s| && AlmostDown(s, i) && NewerChild(s, i, j) && Time(s[j]) > Time(s[i])
    ensures AlmostDown(Swapped(s, i, j), j)
  {
    var r := Swapped(s, i, j);
    forall k: nat | k < |r| && (k == 0 || Parent(k) != j) ensures HeapAt(r, k) {
      if k != j && k != i && (k == 0 || Parent(k) != i) { assert HeapAt(s, k); }
      if k == i && i > 0 { assert Time(s[j]) <= Time(s[Parent(i)]); }
    }
    forall k: nat | k < |r| && k > 0 && Parent(k) == j ensures Time(r[k]) <= Time(r[Parent(j)]) {
      assert HeapAt(s, k);
    }
  }

  lemma DownStop(s: seq<MergeItem>, i: nat)
    requires i < |s| && AlmostDown(s, i)
    requires forall k: nat :: 0 < k < |s| && Parent(k) == i ==> Time(s[k]) <= Time(s[i])
    ensures IsHeap(s)
  {
  }

  class MergeHeap {
    var data: array<MergeItem>
    var n: nat

    ghost predicate Valid()
      reads this, data
    {
      n <= data.Length && IsHeap(data[..n])
    }

    /** The entries held, in slice order. */
    ghost function Items(): seq<MergeItem>
      reads this, data
      requires n <= data.Length
    {
      data[..n]
    }

    constructor ()
      ensures Valid() && Items() == [] && fresh(data)
    {
      data := new MergeItem[0];
      n := 0;
    }

    method Swap(i: nat, j: nat)
      requires n <= data.Length && i < n && j < n
      modifies data
      ensures Items() == Swapped(old(Items()), i, j)
      ensures multiset(Items()) == multiset(old(Items()))
      ensures forall k :: n <= k < data.Length ==> data[k] == old(data[k])
    {
      data[i], data[j] := data[j], data[i];
      SwappedIsPermutation(old(Items()), i, j);
      assert Items() == Swapped(old(Items()), i, j);
    }

    /** Append to the slice, reallocating when it is full. */
    method Append(x: MergeItem)
      requires n <= data.Length
      modifies this, data
      ensures n <= data.Length && (data == old(data) || fresh(data))
      ensures Items() == old(Items()) + [x]
    {
      if n == data.Length {
        var bigger := new MergeItem[2 * n + 1](_ => x);
        for k := 0 to n
          modifies bigger
          invariant forall i :: 0 <= i < k ==> bigger[i] == data[i]
          invariant unchanged(data)
        {
          bigger[k] := data[k];
        }
        data := bigger;
      }
      data[n] := x;
      n := n + 1;
    }

    method Up(j0: nat)
      requires n <= data.Length && AlmostUp(data[..n], j0)
      modifies data
      ensures Valid()
      ensures multiset(Items()) == multiset(old(Items()))
    {
      var j := j0;
      while true
        invariant AlmostUp(data[..n], j)
        invariant multiset(Items()) == multiset(old(Items()))
        decreases j
      {
        var i := Parent(j);
        if i == j || !(Time(data[j]) > Time(data[i])) {
          assert HeapAt(data[..n], j);
          break;
        }
        UpStep(data[..n], j);
        Swap(i, j);
        j := i;
      }
    }

    /** heap.Push. */
    method Push(x: MergeItem)
      requires Valid()
      modifies this, data
      ensures Valid() && (data == old(data) || fresh(data))
      ensures multiset(Items()) == multiset(old(Items())) + multiset{x}
      ensures n == old(n) + 1
    {
      ghost var before := Items();
      Append(x);
      AppendIsAlmostUp(before, x);
      Up(n - 1);
    }

    /** The child of `i` that sift-down compares with it. */
    method LargerChild(i: nat) returns (j: nat)
      requires n <= data.Length && 2 * i + 1 < n
      ensures j < n && NewerChild(data[..n], i, j)
    {
      j := 2 * i + 1;
      if j + 1 < n && Time(data[j + 1]) > Time(data[j]) {
        j := j + 1;
      }
    }

    /** Sift-down within the first `n` entries of the slice. */
    method Down()
      requires n <= data.Length && (n > 0 ==> AlmostDown(data[..n], 0))
      modifies data
      ensures Valid()
      ensures multiset(Items()) == multiset(old(Items()))
      ensures forall k :: n <= k < data.Length ==> data[k] == old(data[k])
    {
      var i := 0;
      while 2 * i + 1 < n
        invariant 0 <= i && (n > 0 ==> i < n && AlmostDown(data[..n], i))
        invariant multiset(Items()) == multiset(old(Items()))
        invariant forall k :: n <= k < data.Length ==> data[k] == old(data[k])
        decreases n - i
      {
        var j := LargerChild(i);
        if !(Time(data[j]) > Time(data[i])) {
          break;
        }
        DownStep(data[..n], i, j);
        Swap(i, j);
        i := j;
      }
      if n > 0 { DownStop(data[..n], i); }
    }

    /** The root moves just behind the entries held. */
    method SetRootAside()
      requires 0 < n <= data.Length
      modifies this`n, data
      ensures n == old(n) - 1 && data[n] == old(data[0])
      ensures Items() == Swapped(old(Items()), 0, n)[..n]
    {
      Swap(0, n - 1);
      ghost var swapped := Items();
      n := n - 1;
      assert data[n] == swapped[n] && Items() == swapped[..n];
    }

    /** heap.Pop: swap the root with the last entry, sift down in front of it, shrink. */
    method Pop() returns (top: MergeItem)
      requires Valid() && n > 0
      modifies this, data
      ensures Valid() && data == old(data)
      ensures top in old(Items())
      ensures multiset(Items()) == multiset(old(Items())) - multiset{top}
      ensures forall x :: x in multiset(old(Items())) ==> Time(x) <= Time(top)
      ensures n == old(n) - 1
    {
      ghost var before := Items();
      SetRootAside();
      PopIsAlmostDown(before, Items());
      PopTakesTheNewest(before, Items());
      Down();
      top := data[n];
    }
  }

  lemma AppendIsAlmostUp(s: seq<MergeItem>, x: MergeItem)
    requires IsHeap(s)
    ensures AlmostUp(s + [x], |s|)
  {
    var r := s + [x];
    forall k: nat | k < |r| && k != |s| ensures HeapAt(r, k) { assert HeapAt(s, k); }
  }

  lemma PopIsAlmostDown(s: seq<MergeItem>, rest: seq<MergeItem>)
    requires IsHeap(s) && s != [] && rest == Swapped(s, 0, |s| - 1)[..|s| - 1]
    ensures rest != [] ==> AlmostDown(rest, 0)
  {
    forall k: nat | k < |rest| && (k == 0 || Parent(k) != 0) ensures HeapAt(rest, k) { assert HeapAt(s, k); }
  }

  lemma PopTakesTheNewest(s: seq<MergeItem>, rest: seq<MergeItem>)
    requires IsHeap(s) && s != [] && rest == Swapped(s, 0, |s| - 1)[..|s| - 1]
    ensures multiset(rest) == multiset(s) - multiset{s[0]}
    ensures forall x :: x in multiset(s) ==> Time(x) <= Time(s[0])
  {
    SwappedIsPermutation(s, 0, |s| - 1);
    assert Swapped(s, 0, |s| - 1) == rest + [s[0]];
    forall x | x in multiset(s) ensures Time(x) <= Time(s[0]) {
      assert x in s;
      var k :| 0 <= k < |s| && s[k] == x;
      RootIsNewest(s, k);
    }
  }
}
