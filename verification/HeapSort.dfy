/** Heap sort in place: a max-heap that shrinks from the right in front of a growing sorted tail. */
module HeapSort {
  import opened Permutations

  /** The node at p is no smaller than its children. */
  predicate NodeOk(s: seq<int>, p: int, size: int)
    requires 0 <= p && size <= |s|
  {
    && (2 * p + 1 < size ==> s[p] >= s[2 * p + 1])
    && (2 * p + 2 < size ==> s[p] >= s[2 * p + 2])
  }

  predicate Heap(s: seq<int>, lo: int, size: int)
    requires 0 <= lo && size <= |s|
  {
    forall p :: lo <= p < size ==> NodeOk(s, p, size)
  }

  predicate IsChild(c: int, p: int) {
    c == 2 * p + 1 || c == 2 * p + 2
  }

  /** Of the children of idx, the given one is largest. */
  predicate Largest(s: seq<int>, size: int, idx: int, child: int)
    requires 0 <= idx && 0 <= child < size <= |s| && 2 * idx + 1 < size
  {
    s[child] >= s[2 * idx + 1] && (2 * idx + 2 < size ==> s[child] >= s[2 * idx + 2])
  }

  /** A heap but for the node at idx, whose parent is no smaller than its children. */
  predicate HeapBut(s: seq<int>, lo: int, size: int, idx: int)
    requires 0 <= lo && size <= |s|
  {
    && lo <= idx < size
    && (forall p :: lo <= p < size && p != idx ==> NodeOk(s, p, size))
    && (forall p :: lo <= p < size && IsChild(idx, p) ==>
          (2 * idx + 1 < size ==> s[p] >= s[2 * idx + 1]) && (2 * idx + 2 < size ==> s[p] >= s[2 * idx + 2]))
  }

  /** Every element of the suffix is in its final place: sorted, and no smaller than anything before. */
  predicate TailDone(s: seq<int>, from: int)
    requires 0 <= from <= |s|
  {
    forall i, j :: 0 <= i < j < |s| && from <= j ==> s[i] <= s[j]
  }

  lemma {:induction false} RootIsLargest(s: seq<int>, size: int, i: int)
    requires 0 <= i < size <= |s| && Heap(s, 0, size)
    decreases i
    ensures s[0] >= s[i]
  {
    if i > 0 {
      var p := (i - 1) / 2;
      assert NodeOk(s, p, size);
      RootIsLargest(s, size, p);
    }
  }

  /** The larger child of idx, larger than the element there, moves up. */
  lemma {:induction false} MoveUp(s: seq<int>, lo: int, size: int, idx: int, child: int)
    requires 0 <= lo && size <= |s| && HeapBut(s, lo, size, idx)
    requires child < size && IsChild(child, idx) && s[idx] < s[child] && Largest(s, size, idx, child)
    ensures HeapBut(Swapped(s, idx, child), lo, size, child)
  {
    var t := Swapped(s, idx, child);
    assert NodeOk(s, child, size);
    forall p | lo <= p < size && p != child ensures NodeOk(t, p, size) {
      if p != idx {
        assert NodeOk(s, p, size);
      }
    }
  }

  lemma {:induction false} Settled(s: seq<int>, lo: int, size: int, idx: int)
    requires 0 <= lo && size <= |s| && HeapBut(s, lo, size, idx) && NodeOk(s, idx, size)
    ensures Heap(s, lo, size)
  {
  }

  lemma {:induction false} LowEnough(s: seq<int>, size: int, idx: int, child: int)
    requires 0 <= idx && size <= |s| && child >= 0
    requires child >= size ==> child == 2 * idx + 1
    requires 0 <= child < size ==> IsChild(child, idx) && s[idx] >= s[child] && Largest(s, size, idx, child)
    ensures NodeOk(s, idx, size)
  {
  }

  /** The child moves into the hole. */
  method PullUp(a: array<int>, ghost size: nat, idx: nat, child: nat, ghost temp: int, ghost lo: nat, ghost s: seq<int>)
    returns (ghost t: seq<int>)
    requires idx < child < size <= a.Length && IsChild(child, idx) && 2 * idx + 1 < size
    requires s == a[..][idx := temp] && HeapBut(s, lo, size, idx) && Largest(s, size, idx, child) && temp < a[child]
    modifies a
    ensures t == a[..][child := temp] && HeapBut(t, lo, size, child) && Rearranged(s, t, 0, size - 1)
  {
    hide Rearranged, HeapBut, Swapped, Largest;
    HoleMoved(a[..], s, idx, child, temp);
    MoveUp(s, lo, size, idx, child);
    SwapRearranges(s, idx, child, 0, size - 1);
    t := Swapped(s, idx, child);
    Put(a, idx, a[child]);
  }

  /** shift: the element at idx sinks below its larger children. */
  method Shift(a: array<int>, size: nat, start: nat, ghost lo: nat)
    requires lo <= start < size <= a.Length && HeapBut(a[..], lo, size, start)
    modifies a
    ensures Heap(a[..], lo, size) && Rearranged(old(a[..]), a[..], 0, size - 1)
  {
    hide Rearranged, HeapBut, Heap, NodeOk, Swapped, Largest;
    var temp, idx := a[start], start;
    var child := 2 * idx + 1;
    ghost var s := a[..];
    NotRearranged(s, 0, size - 1);
    while child < size
      invariant lo <= idx < size && child == 2 * idx + 1 && s == a[..][idx := temp]
      invariant HeapBut(s, lo, size, idx) && Rearranged(old(a[..]), s, 0, size - 1)
      decreases size - idx
    {
      child := LargerChild(a, size, idx);
      HoleMoved(a[..], s, idx, child, temp);
      LargerStill(a[..], s, size, idx, child, temp);
      if temp >= a[child] {
        LowEnough(s, size, idx, child);
        break;
      }
      ghost var before := s;
      s := PullUp(a, size, idx, child, temp, lo, s);
      RearrangedTwice(old(a[..]), before, s, 0, size - 1);
      idx := child;
      child := 2 * idx + 1;
    }
    if child >= size { LowEnough(s, size, idx, child); }
    Settled(s, lo, size, idx);
    Put(a, idx, temp);
  }

  /** The right child if there is one and it is larger, the left one otherwise. */
  method LargerChild(a: array<int>, size: nat, idx: nat) returns (child: nat)
    requires size <= a.Length && 2 * idx + 1 < size
    ensures child < size && IsChild(child, idx) && Largest(a[..], size, idx, child)
  {
    child := 2 * idx + 1;
    if child < size - 1 && a[child] < a[child + 1] {
      child := child + 1;
    }
  }

  lemma {:induction false} LargerStill(a: seq<int>, s: seq<int>, size: int, idx: int, child: int, x: int)
    requires 0 <= idx && 0 <= child < size <= |a| && 2 * idx + 1 < size && IsChild(child, idx)
    requires Largest(a, size, idx, child) && s == a[idx := x]
    ensures Largest(s, size, idx, child)
  {
  }

  lemma {:induction false} OneMoreNode(s: seq<int>, i: nat, size: nat)
    requires i < size <= |s| && Heap(s, i + 1, size)
    ensures HeapBut(s, i, size, i)
  {
  }

  /** Leaves are heaps. */
  lemma {:induction false} LeavesAreHeaps(s: seq<int>, i: nat)
    requires i >= |s| / 2
    ensures Heap(s, i, |s|)
  {
  }

  /** The root, swapped with the last element of the heap, takes its final place. */
  lemma {:induction false} RootToTail(s: seq<int>, size: nat)
    requires 2 <= size <= |s| && Heap(s, 0, size) && TailDone(s, size)
    ensures var t := Swapped(s, 0, size - 1);
      HeapBut(t, 0, size - 1, 0) && TailDone(t, size - 1)
  {
    var t, n := Swapped(s, 0, size - 1), size - 1;
    forall p | 0 < p < n ensures NodeOk(t, p, n) {
      assert NodeOk(s, p, size);
    }
    forall i, j | 0 <= i < j < |t| && size - 1 <= j ensures t[i] <= t[j] {
      if j == size - 1 {
        RootIsLargest(s, size, if i == 0 then size - 1 else i);
      }
    }
  }

  /** Rearranging the heap disturbs nothing in the tail. */
  lemma {:induction false} TailStays(s: seq<int>, t: seq<int>, size: nat)
    requires 1 <= size <= |s| && TailDone(s, size) && Rearranged(s, t, 0, size - 1)
    ensures TailDone(t, size)
  {
    forall i, j | 0 <= i < j < |t| && size <= j ensures t[i] <= t[j] {
      var i0 := i;
      if i < size { i0 := CameFrom(s, t, 0, size - 1, i); }
      assert s[i0] <= s[j];
    }
  }

  /** The first loop of heap_sort: the whole array becomes a heap. */
  method Build(a: array<int>)
    requires a.Length > 0
    modifies a
    ensures Heap(a[..], 0, a.Length) && Rearranged(old(a[..]), a[..], 0, a.Length - 1)
  {
    hide Rearranged, Heap, HeapBut;
    var i: int := a.Length / 2;
    LeavesAreHeaps(a[..], i + 1);
    NotRearranged(a[..], 0, a.Length - 1);
    while i >= 0
      invariant -1 <= i < a.Length && Heap(a[..], i + 1, a.Length)
      invariant Rearranged(old(a[..]), a[..], 0, a.Length - 1)
    {
      ghost var s := a[..];
      OneMoreNode(s, i, a.Length);
      Shift(a, a.Length, i, i);
      RearrangedTwice(old(a[..]), s, a[..], 0, a.Length - 1);
      i := i - 1;
    }
  }

  /** One round of the second loop of heap_sort. */
  method MoveRoot(a: array<int>, size: nat)
    requires 2 <= size <= a.Length && Heap(a[..], 0, size) && TailDone(a[..], size)
    modifies a
    ensures Heap(a[..], 0, size - 1) && TailDone(a[..], size - 1)
    ensures Rearranged(old(a[..]), a[..], 0, a.Length - 1)
  {
    hide Rearranged, Heap, HeapBut, TailDone;
    ghost var s := a[..];
    RootToTail(s, size);
    SwapRearranges(s, 0, size - 1, 0, a.Length - 1);
    a[0], a[size - 1] := a[size - 1], a[0];
    ghost var t := a[..];
    assert t == Swapped(s, 0, size - 1);
    Shift(a, size - 1, 0, 0);
    TailStays(t, a[..], size - 1);
    RearrangedWider(t, a[..], 0, size - 2, 0, a.Length - 1);
    RearrangedTwice(s, t, a[..], 0, a.Length - 1);
  }

  /** heap_sort: sorts in place; on an empty list its first shift reads element 0 and fails. */
  method Sort(a: array<int>) returns (ok: bool)
    modifies a
    ensures ok <==> a.Length > 0
    ensures forall i, j :: 0 <= i < j < a.Length ==> a[i] <= a[j]
    ensures multiset(a[..]) == multiset(old(a[..]))
  {
    if a.Length == 0 {
      return false;
    }
    Build(a);
    var j := 1;
    while j < a.Length
      invariant 1 <= j <= a.Length && Heap(a[..], 0, a.Length - j + 1) && TailDone(a[..], a.Length - j + 1)
      invariant Rearranged(old(a[..]), a[..], 0, a.Length - 1)
    {
      hide Rearranged, Heap, TailDone;
      ghost var s := a[..];
      MoveRoot(a, a.Length - j + 1);
      RearrangedTwice(old(a[..]), s, a[..], 0, a.Length - 1);
      j := j + 1;
    }
    WholeRearranged(old(a[..]), a[..]);
    return true;
  }
}
