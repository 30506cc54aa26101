/**
 * HeapAdaptablePriorityQueue: a binary min-heap stored in an array list whose entries are
 * location-aware. Each entry records its own position in the list, so a caller holding the
 * entry can remove it or change its key without a search.
 *
 * The array-heap base the queue extends (parent/left/right arithmetic, swap, upheap, downheap,
 * size, min, removeMin) is the textbook array heap; it is modelled here as part of the same
 * class, over integer keys in their natural order.
 */
module HeapAdaptablePriorityQueue {
  import opened Wrappers
  import opened AbstractPriorityQueue

  /** The IllegalArgumentException validate raises for an entry this queue does not hold. */
  datatype PQError = InvalidEntry

  function Parent(j: nat): nat
    requires j > 0
  {
    (j - 1) / 2
  }

  function Left(j: nat): nat {
    2 * j + 1
  }

  function Right(j: nat): nat {
    2 * j + 2
  }

  /**
   * A key-value entry that also stores its index in the heap (PQEntry together with the
   * index field AdaptablePQEntry adds).
   */
  class AdaptablePQEntry<V> {
    var key: int
    var value: V
    var index: nat

    constructor (key: int, value: V, j: nat)
      ensures this.key == key && this.value == value && index == j
    {
      this.key, this.value, index := key, value, j;
    }

    method SetKey(k: int)
      modifies this`key
      ensures key == k && value == old(value) && index == old(index)
    {
      key := k;
    }

    method SetValue(v: V)
      modifies this`value
      ensures value == v && key == old(key) && index == old(index)
    {
      value := v;
    }

    method SetIndex(j: nat)
      modifies this`index
      ensures index == j && key == old(key) && value == old(value)
    {
      index := j;
    }
  }

  /** A sequence with no entry at two positions. */
  ghost predicate DistinctEntries<T>(s: seq<T>) {
    forall i, j | 0 <= i < j < |s| :: s[i] != s[j]
  }

  /** An element of a sequence without repetitions occurs in it at most once. */
  lemma {:induction false} DistinctOnce<T>(s: seq<T>, x: T)
    requires DistinctEntries(s)
    ensures multiset(s)[x] <= 1
  {
    if s != [] {
      assert s == [s[0]] + s[1..];
      DistinctOnce(s[1..], x);
      if s[0] == x {
        assert x !in s[1..];
      }
    }
  }

  /** The list with the elements at `i` and `j` exchanged. */
  function Swapped<T>(s: seq<T>, i: nat, j: nat): (r: seq<T>)
    requires i < |s| && j < |s|
    ensures |r| == |s| && r[i] == s[j] && r[j] == s[i]
    ensures forall k | 0 <= k < |s| && k != i && k != j :: r[k] == s[k]
    ensures multiset(r) == multiset(s)
  {
    s[i := s[j]][j := s[i]]
  }

  /** The list after the element at `j` is swapped with the last one and the last is dropped. */
  function Detached<T>(s: seq<T>, j: nat): (r: seq<T>)
    requires j < |s|
    ensures |r| == |s| - 1
    ensures forall i | 0 <= i < |r| && i != j :: r[i] == s[i]
    ensures j < |r| ==> r[j] == s[|r|]
  {
    Swapped(s, j, |s| - 1)[..|s| - 1]
  }

  /** Detaching removes exactly one occurrence of the element at `j`, and no other element. */
  lemma DetachedElements<T>(s: seq<T>, j: nat)
    requires j < |s| && DistinctEntries(s)
    ensures multiset(Detached(s, j)) == multiset(s) - multiset{s[j]}
    ensures s[j] !in Detached(s, j)
  {
    DetachedMultiset(s, j);
    DistinctOnce(s, s[j]);
  }

  /** Swapping with the last place and dropping it takes exactly one copy of `s[j]` away. */
  lemma DetachedMultiset<T>(s: seq<T>, j: nat)
    requires j < |s|
    ensures multiset(Detached(s, j)) == multiset(s) - multiset{s[j]}
  {
    var t := Swapped(s, j, |s| - 1);
    assert t == Detached(s, j) + [s[j]];
  }

  // ---------------------------------------------------------------------------------------
  // Heap order on the list of keys, position by position
  // ---------------------------------------------------------------------------------------

  /** No key is below its parent's. */
  ghost predicate HeapOrdered(ks: seq<int>) {
    forall i | 0 < i < |ks| :: ks[Parent(i)] <= ks[i]
  }

  /**
   * Heap order, except that the key at `j` may be below its parent's; the parent of `j` is
   * still not above the children of `j`. This is what upheap repairs.
   */
  ghost predicate UpAt(ks: seq<int>, j: nat) {
    && (forall i | 0 < i < |ks| && i != j :: ks[Parent(i)] <= ks[i])
    && (forall i | 0 < i < |ks| && j > 0 && Parent(i) == j :: ks[Parent(j)] <= ks[i])
  }

  /**
   * Heap order, except that the key at `j` may be above its children's; the parent of `j` is
   * still not above them. This is what downheap repairs.
   */
  ghost predicate DownAt(ks: seq<int>, j: nat) {
    && (forall i | 0 < i < |ks| && Parent(i) != j :: ks[Parent(i)] <= ks[i])
    && (forall i | 0 < i < |ks| && j > 0 && Parent(i) == j :: ks[Parent(j)] <= ks[i])
  }

  /** Heap order on every link except the two sides of `j`: what bubble repairs. */
  ghost predicate BubbleAt(ks: seq<int>, j: nat) {
    && (forall i | 0 < i < |ks| && i != j && Parent(i) != j :: ks[Parent(i)] <= ks[i])
    && (forall i | 0 < i < |ks| && j > 0 && Parent(i) == j :: ks[Parent(j)] <= ks[i])
  }

  /** The children of `j` are exactly the positions whose parent is `j`. */
  lemma ChildrenOf(j: nat, i: nat)
    ensures i > 0 && Parent(i) == j <==> i == Left(j) || i == Right(j)
  {
  }

  /** Following parents from any position reaches the root with no larger key. */
  lemma {:induction false} AncestorBound(ks: seq<int>, i: nat)
    requires HeapOrdered(ks) && i < |ks|
    ensures ks[0] <= ks[i]
    decreases i
  {
    if i > 0 {
      AncestorBound(ks, Parent(i));
    }
  }

  /** In heap order the root holds a least key. */
  lemma RootIsMinimum(ks: seq<int>)
    requires HeapOrdered(ks)
    ensures forall i | 0 <= i < |ks| :: ks[0] <= ks[i]
  {
    forall i | 0 <= i < |ks|
      ensures ks[0] <= ks[i]
    {
      AncestorBound(ks, i);
    }
  }

  /** One upheap step: swapping `j` with its larger parent moves the defect to the parent. */
  lemma UpStep(ks: seq<int>, j: nat)
    requires 0 < j < |ks| && UpAt(ks, j) && ks[j] < ks[Parent(j)]
    ensures UpAt(Swapped(ks, j, Parent(j)), Parent(j))
  {
    var p := Parent(j);
    var t := Swapped(ks, j, p);
    forall i | 0 < i < |t| && i != p
      ensures t[Parent(i)] <= t[i]
    {
      if Parent(i) == p && i != j {
        assert ks[p] <= ks[i];
      }
    }
    if p > 0 {
      forall i | 0 < i < |t| && Parent(i) == p
        ensures t[Parent(p)] <= t[i]
      {
        assert ks[Parent(p)] <= ks[p];
      }
    }
  }

  /** upheap stops at the root or below a parent that is not above it: heap order holds. */
  lemma UpDone(ks: seq<int>, j: nat)
    requires j < |ks| && UpAt(ks, j) && (j == 0 || ks[Parent(j)] <= ks[j])
    ensures HeapOrdered(ks)
  {
  }

  /** One downheap step: swapping `j` with its smaller, smaller-keyed child moves the defect down. */
  lemma DownStep(ks: seq<int>, j: nat, c: nat)
    requires c < |ks| && (c == Left(j) || c == Right(j)) && DownAt(ks, j) && ks[c] < ks[j]
    requires forall d | d < |ks| && (d == Left(j) || d == Right(j)) :: ks[c] <= ks[d]
    ensures DownAt(Swapped(ks, j, c), c)
  {
    var t := Swapped(ks, j, c);
    ChildrenOf(j, c);
    forall i | 0 < i < |t| && Parent(i) != c
      ensures t[Parent(i)] <= t[i]
    {
      ChildrenOf(j, i);
    }
    forall i | 0 < i < |t| && Parent(i) == c
      ensures t[Parent(c)] <= t[i]
    {
      assert ks[c] <= ks[i];
    }
  }

  /** downheap stops where no child is below `j`: heap order holds. */
  lemma DownDone(ks: seq<int>, j: nat)
    requires DownAt(ks, j)
    requires forall d | d < |ks| && (d == Left(j) || d == Right(j)) :: ks[j] <= ks[d]
    ensures HeapOrdered(ks)
  {
    forall i | 0 < i < |ks|
      ensures ks[Parent(i)] <= ks[i]
    {
      ChildrenOf(j, i);
    }
  }

  /** bubble's test: a key below its parent's leaves only an upward defect. */
  lemma BubbleUp(ks: seq<int>, j: nat)
    requires 0 < j < |ks| && BubbleAt(ks, j) && ks[j] < ks[Parent(j)]
    ensures UpAt(ks, j)
  {
  }

  /** Otherwise only a downward defect is left. */
  lemma BubbleDown(ks: seq<int>, j: nat)
    requires j < |ks| && BubbleAt(ks, j) && (j == 0 || ks[Parent(j)] <= ks[j])
    ensures DownAt(ks, j)
  {
  }

  /** insert: a key appended to a heap-ordered list is at most an upward defect. */
  lemma Appended(ks: seq<int>, k: int)
    requires HeapOrdered(ks)
    ensures UpAt(ks + [k], |ks|)
  {
  }

  /** replaceKey: a new key at `j` leaves heap order broken only around `j`. */
  lemma Replaced(ks: seq<int>, j: nat, k: int)
    requires HeapOrdered(ks) && j < |ks|
    ensures BubbleAt(ks[j := k], j)
  {
    var t := ks[j := k];
    if j > 0 {
      forall i | 0 < i < |t| && Parent(i) == j
        ensures t[Parent(j)] <= t[i]
      {
        assert ks[Parent(j)] <= ks[j];
      }
    }
  }

  /**
   * remove: moving the last key into position `j` and dropping the last position leaves heap
   * order broken only around `j`; detaching the last position leaves heap order intact.
   */
  lemma Moved(ks: seq<int>, j: nat)
    requires HeapOrdered(ks) && j < |ks|
    ensures j < |ks| - 1 ==> BubbleAt(Detached(ks, j), j)
    ensures j == |ks| - 1 ==> HeapOrdered(Detached(ks, j))
  {
    var last := |ks| - 1;
    var t := Detached(ks, j);
    forall i | 0 < i < |t| && i != j && Parent(i) != j
      ensures t[Parent(i)] <= t[i]
    {
      assert t[i] == ks[i] && t[Parent(i)] == ks[Parent(i)];
    }
    if j > 0 && j < last {
      forall i | 0 < i < |t| && Parent(i) == j
        ensures t[Parent(j)] <= t[i]
      {
        assert ks[Parent(j)] <= ks[j];
      }
    }
  }

  class HeapAdaptablePriorityQueue<V> {
    var heap: seq<AdaptablePQEntry<V>>

    /** The keys of the entries, position by position. */
    ghost function Keys(): (ks: seq<int>)
      reads this, heap
      ensures |ks| == |heap| && forall i | 0 <= i < |heap| :: ks[i] == heap[i].key
    {
      seq(|heap|, i requires 0 <= i < |heap| reads this, heap => heap[i].key)
    }

    /** Every entry stores the index it sits at. */
    ghost predicate Located()
      reads this, heap
    {
      forall i | 0 <= i < |heap| :: heap[i].index == i
    }

    ghost predicate Valid()
      reads this, heap
    {
      Located() && HeapOrdered(Keys())
    }

    constructor ()
      ensures Valid() && heap == []
    {
      heap := [];
    }

    function Size(): (n: nat)
      reads this
      ensures n == |heap|
    {
      |heap|
    }

    /** isEmpty holds exactly when the heap holds no entry. */
    function Empty(): (r: bool)
      reads this
      ensures r <==> heap == []
    {
      IsEmpty(Size())
    }

    /** compare: the comparator applied to the two entries' keys. */
    function Compare(a: AdaptablePQEntry<V>, b: AdaptablePQEntry<V>): (r: int)
      reads a, b
      ensures r < 0 <==> a.key < b.key
      ensures r == 0 <==> a.key == b.key
      ensures r > 0 <==> a.key > b.key
    {
      CompareKeys(a.key, b.key)
    }

    /** validate: accepts exactly the entries this heap currently holds. */
    function Validate(entry: AdaptablePQEntry<V>): (r: Result<AdaptablePQEntry<V>, PQError>)
      requires Located()
      reads this, heap, entry
      ensures r.Success? <==> entry in heap
      ensures r.Success? ==> r.value == entry && heap[entry.index] == entry
      ensures r.Failure? ==> r.error == InvalidEntry
    {
      if entry.index >= |heap| || heap[entry.index] != entry then Failure(InvalidEntry) else Success(entry)
    }

    /** Entries stored at their own index are pairwise distinct. */
    lemma LocatedDistinct()
      requires Located()
      ensures DistinctEntries(heap)
    {
      forall i, j | 0 <= i < j < |heap|
        ensures heap[i] != heap[j]
      {
        assert heap[i].index == i && heap[j].index == j;
      }
    }

    /** An entry occurs at most once in a heap whose entries store their own index. */
    lemma LocatedOnce(x: AdaptablePQEntry<V>)
      requires Located()
      ensures multiset(heap)[x] <= 1
    {
      LocatedDistinct();
      DistinctOnce(heap, x);
    }

    /** The root of a heap-ordered list has a least key. */
    lemma MinAtRoot()
      requires HeapOrdered(Keys()) && heap != []
      ensures forall e | e in heap :: heap[0].key <= e.key
    {
      RootIsMinimum(Keys());
    }

    /** min: the root, an entry of least key, or nothing when the heap is empty. */
    function Min(): (r: Option<AdaptablePQEntry<V>>)
      requires HeapOrdered(Keys())
      reads this, heap
      ensures r.None? <==> heap == []
      ensures r.Some? ==> r.value in heap && forall e | e in heap :: r.value.key <= e.key
    {
      if heap == [] then None else MinAtRoot(); Some(heap[0])
    }

    /** swap: exchanges two entries and stores their new indices in them. */
    method Swap(i: nat, j: nat)
      requires i < |heap| && j < |heap| && Located()
      modifies this, (heap[i] as AdaptablePQEntry<V>)`index, (heap[j] as AdaptablePQEntry<V>)`index
      ensures heap == Swapped(old(heap), i, j)
      ensures Located() && Keys() == Swapped(old(Keys()), i, j)
    {
      ghost var ks := Keys();
      var tmp := heap[i];
      heap := heap[i := heap[j]][j := tmp];
      heap[i].index := i;
      heap[j].index := j;
      assert Keys() == Swapped(ks, i, j);
    }

    /** Removes the last entry of the list. */
    method DropLast()
      requires heap != [] && Located()
      modifies this
      ensures heap == old(heap)[..|old(heap)| - 1]
      ensures Located() && Keys() == old(Keys())[..|heap|]
    {
      heap := heap[..|heap| - 1];
    }

    /**
     * The entry at `j` leaves the list: unless it is last, it is first swapped with the last
     * entry; then the last position is dropped.
     */
    method Detach(j: nat)
      requires j < |heap| && Located()
      modifies this, (heap[j] as AdaptablePQEntry<V>)`index, (heap[|heap| - 1] as AdaptablePQEntry<V>)`index
      ensures heap == Detached(old(heap), j) && Keys() == Detached(old(Keys()), j)
      ensures Located()
    {
      ghost var h0, ks := heap, Keys();
      var last := |heap| - 1;
      if j != last {
        Swap(j, last);
        DropLast();
      } else {
        DropLast();
        assert heap == Detached(h0, j);
      }
    }

    /** upheap: moves the entry at `j` up until its parent is not above it. */
    method Upheap(j0: nat)
      requires j0 < |heap| && Located() && UpAt(Keys(), j0)
      modifies this, heap`index
      ensures Valid()
      ensures multiset(heap) == multiset(old(heap))
    {
      var j: nat := j0;
      while j > 0
        invariant j < |heap| && Located() && UpAt(Keys(), j)
        invariant multiset(heap) == multiset(old(heap))
        decreases j
      {
        var p := Parent(j);
        if Compare(heap[j], heap[p]) >= 0 {
          break;
        }
        UpStep(Keys(), j);
        assert heap[j] in multiset(old(heap)) && heap[p] in multiset(old(heap));
        Swap(j, p);
        j := p;
      }
      UpDone(Keys(), j);
    }

    /** downheap: moves the entry at `j` down, each time below its smaller child. */
    method Downheap(j0: nat)
      requires Located() && DownAt(Keys(), j0)
      modifies this, heap`index
      ensures Valid()
      ensures multiset(heap) == multiset(old(heap))
    {
      var j := j0;
      while Left(j) < |heap|
        invariant Located() && DownAt(Keys(), j)
        invariant multiset(heap) == multiset(old(heap))
        decreases |heap| - j
      {
        var small := Left(j);
        if Right(j) < |heap| {
          if Compare(heap[Left(j)], heap[Right(j)]) > 0 {
            small := Right(j);
          }
        }
        if Compare(heap[small], heap[j]) >= 0 {
          DownDone(Keys(), j);
          break;
        }
        DownStep(Keys(), j, small);
        assert heap[j] in multiset(old(heap)) && heap[small] in multiset(old(heap));
        Swap(j, small);
        j := small;
      }
      if Left(j) >= |heap| {
        DownDone(Keys(), j);
      }
    }

    /** bubble: upheap when the entry at `j` is below its parent, downheap otherwise. */
    method Bubble(j: nat)
      requires j < |heap| && Located() && BubbleAt(Keys(), j)
      modifies this, heap`index
      ensures Valid()
      ensures multiset(heap) == multiset(old(heap))
    {
      if j > 0 && Compare(heap[j], heap[Parent(j)]) < 0 {
        BubbleUp(Keys(), j);
        Upheap(j);
      } else {
        BubbleDown(Keys(), j);
        Downheap(j);
      }
    }

    /** insert: a new entry goes to the end of the list and is moved up. */
    method Insert(key: int, value: V) returns (e: AdaptablePQEntry<V>)
      requires Valid()
      modifies this, heap`index
      ensures Valid() && fresh(e)
      ensures e.key == key && e.value == value
      ensures multiset(heap) == multiset(old(heap)) + multiset{e}
      ensures forall x | x in old(heap) :: x.key == old(x.key) && x.value == old(x.value)
    {
      var _ := CheckKey(key);
      ghost var ks := Keys();
      e := new AdaptablePQEntry(key, value, |heap|);
      heap := heap + [e];
      assert Keys() == ks + [key];
      Appended(ks, key);
      Upheap(|heap| - 1);
    }

    /**
     * The removal step of remove: the entry at `j` is swapped with the last one and dropped,
     * and the entry moved into its place is bubbled.
     */
    method DropAt(j: nat)
      requires Valid() && j < |heap|
      modifies this, heap`index
      ensures Valid()
      ensures multiset(heap) == multiset(old(heap)) - multiset{old(heap)[j]} && old(heap)[j] !in heap
    {
      var e := heap[j];
      LocatedDistinct();
      DetachedElements(heap, j);
      Moved(Keys(), j);
      Detach(j);
      assert e !in multiset(heap);
      if j < |heap| {
        Bubble(j);
      }
      assert e !in multiset(heap);
    }

    /** The removal step of removeMin: the root is swapped with the last entry and dropped, then downheap. */
    method DropRoot()
      requires Valid() && heap != []
      modifies this, heap`index
      ensures Valid()
      ensures multiset(heap) == multiset(old(heap)) - multiset{old(heap)[0]} && old(heap)[0] !in heap
    {
      LocatedDistinct();
      DetachedElements(heap, 0);
      Moved(Keys(), 0);
      Detach(0);
      if heap != [] {
        BubbleDown(Keys(), 0);
      }
      Downheap(0);
    }

    /**
     * remove: a held entry is swapped to the end, dropped, and the entry moved into its place
     * is bubbled; an entry the heap does not hold is rejected and nothing changes.
     */
    method Remove(entry: AdaptablePQEntry<V>) returns (r: Result<(), PQError>)
      requires Valid()
      modifies this, heap`index
      ensures Valid()
      ensures r.Success? <==> entry in old(heap)
      ensures r.Failure? ==> r.error == InvalidEntry && heap == old(heap)
      ensures r.Success? ==> multiset(heap) == multiset(old(heap)) - multiset{entry} && entry !in heap
      ensures forall x | x in old(heap) :: x.key == old(x.key) && x.value == old(x.value)
    {
      var v := Validate(entry);
      if v.Failure? {
        return Failure(v.error);
      }
      DropAt(entry.index);
      r := Success(());
    }

    /** replaceKey: a held entry gets the new key and is bubbled; others are rejected. */
    method ReplaceKey(entry: AdaptablePQEntry<V>, key: int) returns (r: Result<(), PQError>)
      requires Valid()
      modifies this, heap`index, entry`key
      ensures Valid()
      ensures r.Success? <==> entry in old(heap)
      ensures r.Failure? ==> r.error == InvalidEntry && heap == old(heap)
      ensures r.Success? ==> entry.key == key
      ensures r.Failure? ==> entry.key == old(entry.key)
      ensures multiset(heap) == multiset(old(heap))
      ensures forall x | x in old(heap) && (r.Failure? || x != entry) :: x.key == old(x.key)
      ensures forall x | x in old(heap) :: x.value == old(x.value)
    {
      var v := Validate(entry);
      if v.Failure? {
        return Failure(v.error);
      }
      var _ := CheckKey(key);
      ghost var ks := Keys();
      var j := entry.index;
      LocatedDistinct();
      entry.SetKey(key);
      assert Keys() == ks[j := key];
      Replaced(ks, j, key);
      Bubble(j);
      r := Success(());
    }

    /** removeMin: the root leaves the heap, the last entry takes its place and moves down. */
    method RemoveMin() returns (r: Option<AdaptablePQEntry<V>>)
      requires Valid()
      modifies this, heap`index
      ensures Valid()
      ensures r.None? <==> old(heap) == []
      ensures r.None? ==> heap == []
      ensures r.Some? ==> r.value in old(heap) && multiset(heap) == multiset(old(heap)) - multiset{r.value}
      ensures r.Some? ==> r.value !in heap && forall x | x in old(heap) :: r.value.key <= x.key
      ensures forall x | x in old(heap) :: x.key == old(x.key) && x.value == old(x.value)
    {
      if heap == [] {
        return None;
      }
      MinAtRoot();
      var answer := heap[0];
      DropRoot();
      r := Some(answer);
      forall x | x in old(heap)
        ensures x.key == old(x.key) && x.value == old(x.value) && answer.key <= x.key
      {
      }
    }
  }
}
