/** A binary min-heap that keeps its elements in a vector and lets callers walk over and change them. */
module PriorityQueues {

  /** An element: the number that it converts to, and whatever else it holds. */
  datatype Entry<V> = Entry(key: real, value: V)

  function Parent(j: nat): (p: nat)
    requires j > 0
    ensures j == 2 * p + 1 || j == 2 * p + 2
  {
    (j - 1) / 2
  }

  predicate IsHeap<V>(c: seq<Entry<V>>) {
    HeapFrom(c, 0)
  }

  /** Heap order between every parent at or after `start` and its children. */
  predicate HeapFrom<V>(c: seq<Entry<V>>, start: nat) {
    forall j :: 0 < j < |c| && start <= Parent(j) ==> c[Parent(j)].key <= c[j].key
  }

  ghost predicate IsPermutation<V>(a: seq<Entry<V>>, b: seq<Entry<V>>) {
    |a| == |b| && multiset(a) == multiset(b)
  }

  /** The front of a heap is a least element. */
  lemma {:induction false} FrontIsLeast<V>(c: seq<Entry<V>>, i: nat)
    requires IsHeap(c) && i < |c|
    ensures c[0].key <= c[i].key
  {
    if i > 0 {
      FrontIsLeast(c, Parent(i));
    }
  }

  lemma SamePlaces<V>(a: seq<Entry<V>>, b: seq<Entry<V>>, e: Entry<V>)
    requires IsPermutation(a, b)
    ensures e in a <==> e in b
  {
    assert e in a <==> e in multiset(a);
    assert e in b <==> e in multiset(b);
  }

  function Swap<V>(c: seq<Entry<V>>, i: nat, j: nat): (r: seq<Entry<V>>)
    requires i < |c| && j < |c|
    ensures IsPermutation(r, c)
  {
    c[i := c[j]][j := c[i]]
  }

  // ---------- std::ranges::push_heap, pop_heap and make_heap ----------

  /** A heap but for the element at `i`, which may be less than its parent. */
  predicate RisingAt<V>(c: seq<Entry<V>>, i: nat) {
    && (forall j :: 0 < j < |c| && j != i ==> c[Parent(j)].key <= c[j].key)
    && (forall j :: 0 < j < |c| && 0 < i == Parent(j) ==> c[Parent(i)].key <= c[j].key)
  }

  lemma RiseStep<V>(c: seq<Entry<V>>, i: nat)
    requires 0 < i < |c| && RisingAt(c, i) && c[i].key < c[Parent(i)].key
    ensures RisingAt(Swap(c, Parent(i), i), Parent(i))
  {
    var p := Parent(i);
    var r := Swap(c, p, i);
    forall j | 0 < j < |r| && j != p ensures r[Parent(j)].key <= r[j].key {
      assert j != i ==> c[Parent(j)].key <= c[j].key;
    }
    forall j | 0 < j < |r| && 0 < p == Parent(j) ensures r[Parent(p)].key <= r[j].key {
      assert c[Parent(p)].key <= c[p].key;
      assert j != i ==> c[p].key <= c[j].key;
    }
  }

  /** Makes a heap of all of `c`, of which all but the last element is one. */
  method PushHeap<V>(c: seq<Entry<V>>) returns (r: seq<Entry<V>>)
    requires c != [] && IsHeap(c[..|c| - 1])
    ensures IsHeap(r) && IsPermutation(r, c)
  {
    r := c;
    var i: nat := |c| - 1;
    assert forall j :: 0 < j < |c| - 1 ==> c[..|c| - 1][Parent(j)].key <= c[..|c| - 1][j].key;
    while i > 0 && r[i].key < r[Parent(i)].key
      invariant i < |r| && IsPermutation(r, c) && RisingAt(r, i)
    {
      RiseStep(r, i);
      r := Swap(r, Parent(i), i);
      i := Parent(i);
    }
  }

  /** Heap order from `start` on, but for the element at `i`, which may be greater than its children. */
  predicate SinkingAt<V>(c: seq<Entry<V>>, start: nat, i: nat) {
    && (forall j :: 0 < j < |c| && start <= Parent(j) != i ==> c[Parent(j)].key <= c[j].key)
    && (forall j :: 0 < j < |c| && 0 < i == Parent(j) && start <= Parent(i) ==> c[Parent(i)].key <= c[j].key)
  }

  lemma SinkStep<V>(c: seq<Entry<V>>, start: nat, i: nat, child: nat)
    requires start <= i && child < |c| && (child == 2 * i + 1 || child == 2 * i + 2)
    requires SinkingAt(c, start, i) && c[child].key <= c[i].key
    requires forall j :: 0 < j < |c| && Parent(j) == i ==> c[child].key <= c[j].key
    ensures SinkingAt(Swap(c, i, child), start, child)
  {
    var r := Swap(c, i, child);
    forall j | 0 < j < |r| && start <= Parent(j) != child ensures r[Parent(j)].key <= r[j].key {
      assert Parent(j) != i ==> c[Parent(j)].key <= c[j].key;
      assert j == i ==> Parent(child) == i;
    }
    forall j | 0 < j < |r| && child == Parent(j) ensures r[Parent(child)].key <= r[j].key {
      assert c[Parent(j)].key <= c[j].key;
    }
  }

  lemma SinkStart<V>(c: seq<Entry<V>>, start: nat)
    requires HeapFrom(c, start + 1)
    ensures SinkingAt(c, start, start)
  {
  }

  lemma SinkDone<V>(c: seq<Entry<V>>, start: nat, i: nat)
    requires SinkingAt(c, start, i)
    requires forall j :: 0 < j < |c| && Parent(j) == i ==> c[i].key <= c[j].key
    ensures HeapFrom(c, start)
  {
  }

  /** Moves the element at `start` down until its children are no less. */
  method SiftDown<V>(c: seq<Entry<V>>, start: nat) returns (r: seq<Entry<V>>)
    requires HeapFrom(c, start + 1)
    ensures HeapFrom(r, start) && IsPermutation(r, c)
  {
    hide HeapFrom, SinkingAt, Parent, Swap;
    r := c;
    var i := start;
    SinkStart(r, start);
    while 2 * i + 1 < |r|
      invariant start <= i && IsPermutation(r, c) && SinkingAt(r, start, i)
      decreases |r| - i
    {
      var child := 2 * i + 1;
      if child + 1 < |r| && r[child + 1].key < r[child].key {
        child := child + 1;
      }
      if r[i].key <= r[child].key {
        SinkDone(r, start, i);
        return;
      }
      SinkStep(r, start, i, child);
      r := Swap(r, i, child);
      i := child;
    }
    SinkDone(r, start, i);
  }

  /** Moves the front of a heap to the end and makes a heap of the others. */
  method PopHeap<V>(c: seq<Entry<V>>) returns (r: seq<Entry<V>>)
    requires c != [] && IsHeap(c)
    ensures IsPermutation(r, c) && r[|r| - 1] == c[0] && IsHeap(r[..|r| - 1])
  {
    var n := |c| - 1;
    var s := Swap(c, 0, n);
    var t := SiftDown(s[..n], 0);
    r := t + [s[n]];
    assert s == s[..n] + [s[n]];
    assert r[..n] == t;
  }

  /** Makes a heap of any elements. */
  method MakeHeap<V>(c: seq<Entry<V>>) returns (r: seq<Entry<V>>)
    ensures IsHeap(r) && IsPermutation(r, c)
  {
    r := c;
    var start := |c|;
    while start > 0
      invariant 0 <= start <= |c| && IsPermutation(r, c) && HeapFrom(r, start)
    {
      start := start - 1;
      r := SiftDown(r, start);
    }
  }

  // ---------- Subtracting from every element ----------

  function Shifted<V>(c: seq<Entry<V>>, dt: real): (r: seq<Entry<V>>)
    ensures |r| == |c| && forall i :: 0 <= i < |c| ==> r[i] == Entry(c[i].key - dt, c[i].value)
  {
    seq(|c|, i requires 0 <= i < |c| => Entry(c[i].key - dt, c[i].value))
  }

  /** Taking one amount from every element in place leaves a heap a heap. */
  lemma ShiftedIsHeap<V>(c: seq<Entry<V>>, dt: real)
    requires IsHeap(c)
    ensures IsHeap(Shifted(c, dt))
  {
    var r := Shifted(c, dt);
    forall j | 0 < j < |r| ensures r[Parent(j)].key <= r[j].key {
      assert c[Parent(j)].key <= c[j].key;
    }
  }

  class PriorityQueue<V> {
    var c: seq<Entry<V>>

    predicate Valid()
      reads this
    {
      IsHeap(c)
    }

    constructor ()
      ensures Valid() && c == []
    {
      c := [];
    }

    method Push(v: Entry<V>)
      requires Valid()
      modifies this
      ensures Valid() && multiset(c) == old(multiset(c)) + multiset{v} && |c| == old(|c|) + 1
    {
      c := c + [v];
      c := PushHeap(c);
    }

    method Pop()
      requires Valid() && c != []
      modifies this
      ensures Valid() && multiset(c) == old(multiset(c)) - multiset{old(c[0])} && |c| == old(|c|) - 1
    {
      var r := PopHeap(c);
      assert r == r[..|r| - 1] + [r[|r| - 1]];
      c := r[..|r| - 1];
    }

    /** Removes the element at any place. */
    method Erase(i: nat)
      requires Valid() && i < |c|
      modifies this
      ensures Valid() && multiset(c) == old(multiset(c)) - multiset{old(c[i])} && |c| == old(|c|) - 1
    {
      assert c == c[..i] + [c[i]] + c[i + 1..];
      c := c[..i] + c[i + 1..];
      c := MakeHeap(c);
    }

    method Top() returns (v: Entry<V>)
      requires Valid() && c != []
      ensures v == c[0] && forall e :: e in c ==> v.key <= e.key
    {
      v := c[0];
      forall i | 0 <= i < |c| ensures v.key <= c[i].key {
        FrontIsLeast(c, i);
      }
    }

    /** What an iterator can do to the element under it; the heap order is up to the caller. */
    method SubtractAt(i: nat, dt: real)
      requires i < |c|
      modifies this
      ensures c == old(c)[i := Entry(old(c[i]).key - dt, old(c[i]).value)]
    {
      c := c[i := Entry(c[i].key - dt, c[i].value)];
    }
  }
}
