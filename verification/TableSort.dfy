/** Sorting the memory table by total size, largest first: a quicksort with a hand-kept stack of
    ranges that falls back to insertion sort on short ranges. */
module TableSort {
  import opened Arithmetic
  import opened Permutations

  /** One line of the table; a blank one has no file.  `pos` is where the entry belongs. */
  datatype Entry = Entry(file: nat, line: nat, totalSize: nat, totalC: nat, inUseSize: nat, inUseC: nat, pos: nat)

  /** Files are addresses; 0 is NULL. */
  const NULL: nat := 0

  const BLANK: Entry := Entry(NULL, 0, 0, 0, 0, 0, 0)

  const MAX_QSORT_SPLITS: nat := 128
  const MAX_QSORT_PARTITION: nat := 8

  function Weight(e: Entry): nat
  {
    if e.file == NULL then 0 else e.totalSize
  }

  /** entry_cmp: the heavier entry comes first. */
  function EntryCmp(e: Entry, f: Entry): int
  {
    if Weight(e) > Weight(f) then -1 else if Weight(e) == Weight(f) then 0 else 1
  }

  predicate Sorted(s: seq<Entry>, lo: int, hi: int)
    requires 0 <= lo && hi < |s|
  {
    forall i, j :: lo <= i < j <= hi ==> EntryCmp(s[i], s[j]) <= 0
  }

  /** Sorted means heaviest first, a blank entry weighing nothing. */
  lemma {:induction false} SortedIsHeaviestFirst(s: seq<Entry>, lo: int, hi: int)
    requires 0 <= lo && hi < |s|
    ensures Sorted(s, lo, hi) <==> forall i, j :: lo <= i < j <= hi ==>
      (if s[i].file == NULL then 0 else s[i].totalSize) >= (if s[j].file == NULL then 0 else s[j].totalSize)
  {
    assert forall i, j :: lo <= i < j <= hi ==> (EntryCmp(s[i], s[j]) <= 0 <==> Weight(s[i]) >= Weight(s[j]));
  }

  // ---------------------------------------------------------------- insertion sort

  method Swap(a: array<Entry>, i: nat, j: nat)
    requires i < a.Length && j < a.Length
    modifies a
    ensures a[..] == Swapped(old(a[..]), i, j)
  {
    a[i], a[j] := a[j], a[i];
  }

  lemma {:induction false} ShiftSorts(s: seq<Entry>, inner: nat, outer: nat, lo: int)
    requires 0 <= lo <= inner <= outer < |s| && Sorted(s, lo, outer - 1)
    requires inner > lo ==> EntryCmp(s[inner - 1], s[outer]) <= 0
    requires forall k :: inner <= k < outer ==> EntryCmp(s[outer], s[k]) < 0
    ensures Sorted(Shifted(s, inner, outer), lo, outer)
  {
    var t := Shifted(s, inner, outer);
    forall i, j | lo <= i < j <= outer ensures EntryCmp(t[i], t[j]) <= 0 {
      var i0 := if i < inner then i else if i == inner then outer else i - 1;
      var j0 := if j < inner then j else if j == inner then outer else j - 1;
      assert t[i] == s[i0] && t[j] == s[j0];
      if j == inner && i < inner - 1 {
        assert EntryCmp(s[i], s[inner - 1]) <= 0;
      }
    }
  }

  /** Where the entry belongs among the sorted ones before it. */
  method FindPlace(a: array<Entry>, first: nat, outer: nat) returns (inner: nat)
    requires first < outer < a.Length && Sorted(a[..], first, outer - 1)
    ensures first <= inner <= outer
    ensures Sorted(Shifted(a[..], inner, outer), first, outer)
  {
    var at: int := outer - 1;
    while at >= first && EntryCmp(a[outer], a[at]) < 0
      invariant first - 1 <= at < outer
      invariant forall k :: at < k < outer ==> EntryCmp(a[outer], a[k]) < 0
    {
      at := at - 1;
    }
    inner := at + 1;
    ShiftSorts(a[..], inner, outer, first);
  }

  /** memcpy out, memmove, memcpy in. */
  method ShiftDown(a: array<Entry>, inner: nat, outer: nat)
    requires inner <= outer < a.Length
    modifies a
    ensures a[..] == Shifted(old(a[..]), inner, outer)
  {
    if outer != inner {
      var holder := a[outer];
      forall k | inner < k <= outer {
        a[k] := a[k - 1];
      }
      a[inner] := holder;
    }
  }

  /** insert_sort: each entry moves down past the lighter ones before it. */
  method InsertSort(a: array<Entry>, first: nat, last: nat)
    requires first <= last < a.Length
    modifies a
    ensures Sorted(a[..], first, last) && Rearranged(old(a[..]), a[..], first, last)
  {
    hide Rearranged, Shifted, Sorted;
    NotRearranged(a[..], first, last);
    var outer := first + 1;
    assert Sorted(a[..], first, outer - 1) by { OneIsSorted(a[..], first); }
    while outer <= last
      invariant first < outer <= last + 1 && Sorted(a[..], first, outer - 1)
      invariant Rearranged(old(a[..]), a[..], first, last)
    {
      ghost var s := a[..];
      var inner := FindPlace(a, first, outer);
      ShiftRearranges(s, inner, outer, first, last);
      ShiftDown(a, inner, outer);
      RearrangedTwice(old(a[..]), s, a[..], first, last);
      outer := outer + 1;
    }
  }

  lemma {:induction false} OneIsSorted(s: seq<Entry>, first: nat)
    requires first < |s|
    ensures Sorted(s, first, first)
  {
  }

  // ---------------------------------------------------------------- one partition

  /** The entries at i and j in order. */
  method PutInOrder(a: array<Entry>, i: nat, j: nat, ghost first: nat, ghost last: nat) returns (swapped: bool)
    requires first <= i < j <= last < a.Length
    modifies a
    ensures Rearranged(old(a[..]), a[..], first, last)
    ensures swapped <==> old(EntryCmp(a[i], a[j]) > 0)
    ensures if swapped then a[i] == old(a[j]) && a[j] == old(a[i]) else a[i] == old(a[i]) && a[j] == old(a[j])
    ensures forall k :: 0 <= k < a.Length && k != i && k != j ==> a[k] == old(a[k])
  {
    swapped := EntryCmp(a[i], a[j]) > 0;
    if swapped {
      SwapRearranges(a[..], i, j, first, last);
      Swap(a, i, j);
    }
  }

  /** Median of three: the middle entry is between the outer two. */
  method MedianOfThree(a: array<Entry>, first: nat, mid: nat, last: nat)
    requires first < mid < last < a.Length
    modifies a
    ensures Rearranged(old(a[..]), a[..], first, last)
    ensures EntryCmp(a[first], a[mid]) <= 0 && EntryCmp(a[mid], a[last]) <= 0
  {
    hide Rearranged;
    ghost var s := a[..];
    var swapped := PutInOrder(a, first, mid, first, last);
    ghost var t := a[..];
    swapped := PutInOrder(a, mid, last, first, last);
    RearrangedTwice(s, t, a[..], first, last);
    if swapped {
      t := a[..];
      swapped := PutInOrder(a, first, mid, first, last);
      RearrangedTwice(s, t, a[..], first, last);
    }
  }

  /** Around the pivot: everything up to rightFirst is at least as heavy, everything after leftLast
      at most as heavy. */
  predicate Parted(s: seq<Entry>, first: int, leftLast: int, rightFirst: int, last: int)
    requires 0 <= first && last < |s|
  {
    && first <= leftLast < rightFirst <= last && rightFirst <= leftLast + 2
    && forall i, j :: first <= i < rightFirst && leftLast < j <= last ==> EntryCmp(s[i], s[j]) <= 0
  }

  /** The scans stop inside the range: at first at the pivot, later at entries already swapped. */
  predicate Guarded(s: seq<Entry>, first: int, left: int, mid: int, right: int, last: int, pivot: Entry)
    requires 0 <= first && last < |s|
  {
    && first <= left && right <= last && first < mid < last
    && (forall i :: first <= i < left && i <= last ==> EntryCmp(s[i], pivot) <= 0)
    && (forall i :: right < i <= last && first <= i ==> EntryCmp(pivot, s[i]) <= 0)
    && ((left == first && right == last && s[mid] == pivot) || (first < left && right < last))
  }

  /** Where the two scans of a round stop. */
  predicate Halted(s: seq<Entry>, first: int, left: int, right: int, last: int, from: int, to: int, pivot: Entry)
    requires 0 <= first && last < |s|
  {
    && first <= from <= left <= last && first <= right <= to <= last && left <= right + 1
    && (from == first ==> left < last && first < right && left <= right)
    && EntryCmp(s[left], pivot) >= 0 && EntryCmp(pivot, s[right]) >= 0
    && (forall i :: first <= i < left ==> EntryCmp(s[i], pivot) <= 0)
    && (forall i :: right < i <= last ==> EntryCmp(pivot, s[i]) <= 0)
    && (from == first || to < last)
  }

  /** One round of the partition loop of split: both scans, without a bound. */
  method Scan(a: array<Entry>, first: nat, from: nat, mid: nat, to: nat, last: nat, pivot: Entry)
    returns (left: nat, right: int)
    requires last < a.Length && from <= to && Guarded(a[..], first, from, mid, to, last, pivot)
    ensures Halted(a[..], first, left, right, last, from, to, pivot)
  {
    left := from;
    ghost var wall := if from == first then mid else to + 1;
    assert EntryCmp(a[wall], pivot) >= 0;
    while EntryCmp(a[left], pivot) < 0
      invariant from <= left <= wall
      invariant forall i :: first <= i < left ==> EntryCmp(a[i], pivot) <= 0
      decreases wall - left
    {
      left := left + 1;
    }
    right := to;
    ghost var floor := if from == first then mid else left - 1;
    assert EntryCmp(pivot, a[floor]) >= 0;
    while EntryCmp(pivot, a[right]) < 0
      invariant floor <= right <= to
      invariant forall i :: right < i <= last ==> EntryCmp(pivot, a[i]) <= 0
      decreases right - floor
    {
      right := right - 1;
    }
  }

  /** Swapping the two entries that stopped the scans leaves guards for the next round. */
  lemma {:induction false} SwapGuards(s: seq<Entry>, first: int, left: int, mid: int, right: int, last: int,
                                      from: int, to: int, pivot: Entry)
    requires 0 <= first < mid < last < |s| && Halted(s, first, left, right, last, from, to, pivot) && left < right
    ensures var t := Swapped(s, left, right);
      && Guarded(t, first, left + 1, mid, right - 1, last, pivot)
      && (left + 1 > right - 1 ==> Parted(t, first, right - 1, left + 1, last))
  {
  }

  lemma {:induction false} HaltedParts(s: seq<Entry>, first: int, left: int, right: int, last: int,
                                       from: int, to: int, pivot: Entry)
    requires 0 <= first < last < |s| && Halted(s, first, left, right, last, from, to, pivot) && left >= right
    ensures if left == right then Parted(s, first, right - 1, left + 1, last) else Parted(s, first, right, left, last)
  {
  }

  method SwapStopped(a: array<Entry>, first: nat, left: nat, ghost mid: nat, right: nat, last: nat,
                     ghost from: int, ghost to: int, ghost pivot: Entry)
    requires first < mid < last < a.Length && first <= left < right <= last
    requires Halted(a[..], first, left, right, last, from, to, pivot)
    modifies a
    ensures Rearranged(old(a[..]), a[..], first, last)
    ensures Guarded(a[..], first, left + 1, mid, right - 1, last, pivot)
    ensures left + 1 > right - 1 ==> Parted(a[..], first, right - 1, left + 1, last)
  {
    hide Rearranged, Halted, Parted, Guarded, Swapped;
    SwapGuards(a[..], first, left, mid, right, last, from, to, pivot);
    SwapRearranges(a[..], left, right, first, last);
    Swap(a, left, right);
  }

  /** The front half of split's loop: choose a pivot and part the range around it. */
  method Partition(a: array<Entry>, first: nat, last: nat) returns (leftLast: nat, rightFirst: nat)
    requires first + 2 <= last < a.Length
    modifies a
    ensures Rearranged(old(a[..]), a[..], first, last)
    ensures Parted(a[..], first, leftLast, rightFirst, last)
  {
    hide Rearranged, Halted, Parted;
    var mid := first + (last - first) / 2;
    MedianOfThree(a, first, mid, last);
    var pivot := a[mid];
    var left: nat, right: int := first, last;
    ghost var from, to := first, last;
    assert Guarded(a[..], first, left, mid, right, last, pivot);
    hide Guarded, Swapped;
    while true
      invariant Guarded(a[..], first, left, mid, right, last, pivot) && left <= right
      invariant Rearranged(old(a[..]), a[..], first, last)
      decreases right - left
    {
      from, to := left, right;
      left, right := Scan(a, first, left, mid, right, last, pivot);
      HaltedBounds(a[..], first, left, right, last, from, to, pivot);
      if left >= right {
        HaltedParts(a[..], first, left, right, last, from, to, pivot);
        if left == right {
          left := left + 1;
          right := right - 1;
        }
        break;
      }
      ghost var s := a[..];
      SwapStopped(a, first, left, mid, right, last, from, to, pivot);
      RearrangedTwice(old(a[..]), s, a[..], first, last);
      left := left + 1;
      right := right - 1;
      if left > right {
        break;
      }
    }
    PartedBounds(a[..], first, right, left, last);
    leftLast, rightFirst := right, left;
  }

  lemma {:induction false} HaltedBounds(s: seq<Entry>, first: int, left: int, right: int, last: int,
                                        from: int, to: int, pivot: Entry)
    requires 0 <= first && last < |s| && Halted(s, first, left, right, last, from, to, pivot)
    ensures first <= from <= left <= last && first <= right <= to <= last
  {
  }

  lemma {:induction false} PartedBounds(s: seq<Entry>, first: int, leftLast: int, rightFirst: int, last: int)
    requires 0 <= first && last < |s| && Parted(s, first, leftLast, rightFirst, last)
    ensures first <= leftLast < rightFirst <= last && rightFirst <= leftLast + 2
  {
  }

  /** Sorting one part keeps the range parted. */
  lemma {:induction false} PartedStill(s: seq<Entry>, t: seq<Entry>, first: int, leftLast: int, rightFirst: int,
                                       last: int, lo: int, hi: int)
    requires 0 <= first && last < |s| && Parted(s, first, leftLast, rightFirst, last)
    requires (lo, hi) == (first, leftLast) || (lo, hi) == (rightFirst, last)
    requires Rearranged(s, t, lo, hi)
    ensures Parted(t, first, leftLast, rightFirst, last)
  {
    forall i, j | first <= i < rightFirst && leftLast < j <= last ensures EntryCmp(t[i], t[j]) <= 0 {
      var i0, j0 := i, j;
      if lo <= i <= hi { i0 := CameFrom(s, t, lo, hi, i); }
      if lo <= j <= hi { j0 := CameFrom(s, t, lo, hi, j); }
      assert EntryCmp(s[i0], s[j0]) <= 0;
    }
  }

  lemma {:induction false} SortedElsewhere(s: seq<Entry>, t: seq<Entry>, lo: int, hi: int, lo': int, hi': int)
    requires 0 <= lo <= hi + 1 <= |s| && Rearranged(s, t, lo, hi) && 0 <= lo' && hi' < |s|
    requires hi < lo' || hi' < lo
    ensures Sorted(s, lo', hi') ==> Sorted(t, lo', hi')
  {
  }

  /** Partition, and insertion sort of the parts that are short enough. */
  method SplitOnce(a: array<Entry>, first: nat, last: nat) returns (leftLast: nat, rightFirst: nat)
    requires first + 2 <= last < a.Length
    modifies a
    ensures Rearranged(old(a[..]), a[..], first, last)
    ensures Parted(a[..], first, leftLast, rightFirst, last)
    ensures leftLast - first < MAX_QSORT_PARTITION ==> Sorted(a[..], first, leftLast)
    ensures last - rightFirst < MAX_QSORT_PARTITION ==> Sorted(a[..], rightFirst, last)
  {
    hide Rearranged, Parted, Sorted;
    leftLast, rightFirst := Partition(a, first, last);
    PartedBounds(a[..], first, leftLast, rightFirst, last);
    if leftLast - first < MAX_QSORT_PARTITION {
      ghost var s := a[..];
      InsertSort(a, first, leftLast);
      PartedStill(s, a[..], first, leftLast, rightFirst, last, first, leftLast);
      RearrangedWider(s, a[..], first, leftLast, first, last);
      RearrangedTwice(old(a[..]), s, a[..], first, last);
    }
    if last - rightFirst < MAX_QSORT_PARTITION {
      ghost var s := a[..];
      InsertSort(a, rightFirst, last);
      PartedStill(s, a[..], first, leftLast, rightFirst, last, rightFirst, last);
      RearrangedWider(s, a[..], rightFirst, last, first, last);
      RearrangedTwice(old(a[..]), s, a[..], first, last);
      SortedElsewhere(s, a[..], rightFirst, last, first, leftLast);
    }
  }

  // ---------------------------------------------------------------- the stack of ranges

  datatype Range = Range(lo: int, hi: int)

  predicate Same(ranges: seq<Range>, i: int, j: int) {
    exists g :: g in ranges && g.lo <= i <= g.hi && g.lo <= j <= g.hi
  }

  /** All that is left to do is inside the ranges. */
  predicate SortedBut(s: seq<Entry>, lo: int, hi: int, ranges: seq<Range>)
    requires 0 <= lo && hi < |s|
  {
    forall i, j :: lo <= i < j <= hi && !Same(ranges, i, j) ==> EntryCmp(s[i], s[j]) <= 0
  }

  predicate Apart(g: Range, h: Range) {
    g.hi < h.lo || h.hi < g.lo
  }

  predicate RangesApart(ranges: seq<Range>, lo: int, hi: int) {
    && (forall k :: 0 <= k < |ranges| ==> lo <= ranges[k].lo && ranges[k].lo + 2 <= ranges[k].hi <= hi)
    && (forall k, m :: 0 <= k < m < |ranges| ==> Apart(ranges[k], ranges[m]))
  }

  /** Rearranging one open range disturbs nothing outside it. */
  lemma {:induction false} RearrangedInside(s: seq<Entry>, t: seq<Entry>, lo: int, hi: int, ranges: seq<Range>,
                                            g: Range)
    requires 0 <= lo <= g.lo <= g.hi <= hi < |s| && SortedBut(s, lo, hi, ranges) && g in ranges
    requires forall h :: h in ranges && h != g ==> Apart(g, h)
    requires Rearranged(s, t, g.lo, g.hi)
    ensures SortedBut(t, lo, hi, ranges)
  {
    forall i, j | lo <= i < j <= hi && !Same(ranges, i, j) ensures EntryCmp(t[i], t[j]) <= 0 {
      var i0, j0 := i, j;
      if g.lo <= i <= g.hi { i0 := CameFrom(s, t, g.lo, g.hi, i); }
      if g.lo <= j <= g.hi { j0 := CameFrom(s, t, g.lo, g.hi, j); }
      assert !Same(ranges, i0, j0);
      assert i0 < j0;
    }
  }

  /** A parted range can be replaced by its two parts. */
  lemma {:induction false} PartsReplace(s: seq<Entry>, lo: int, hi: int, ranges: seq<Range>, g: Range,
                                        leftLast: int, rightFirst: int, more: seq<Range>)
    requires 0 <= lo && hi < |s| && SortedBut(s, lo, hi, ranges + [g])
    requires 0 <= g.lo && g.hi < |s| && Parted(s, g.lo, leftLast, rightFirst, g.hi)
    requires Range(g.lo, leftLast) in more || Sorted(s, g.lo, leftLast)
    requires Range(rightFirst, g.hi) in more || Sorted(s, rightFirst, g.hi)
    ensures SortedBut(s, lo, hi, ranges + more)
  {
    forall i, j | lo <= i < j <= hi && !Same(ranges + more, i, j) ensures EntryCmp(s[i], s[j]) <= 0 {
      if Same(ranges + [g], i, j) {
        var h :| h in ranges + [g] && h.lo <= i <= h.hi && h.lo <= j <= h.hi;
        assert h !in ranges + more ==> h == g;
        if j <= leftLast {
          assert Range(g.lo, leftLast) !in ranges + more;
        } else if i >= rightFirst {
          assert Range(rightFirst, g.hi) !in ranges + more;
        }
      }
    }
  }

  /** n halved c times. */
  function Halved(n: nat, c: nat): nat
  {
    if c == 0 then n else Halved(n, c - 1) / 2
  }

  function Pow2(c: nat): (r: nat)
    ensures r > 0
  {
    if c == 0 then 1 else 2 * Pow2(c - 1)
  }

  lemma {:induction false} HalvedAway(n: nat, c: nat)
    ensures Halved(n, c) * Pow2(c) <= n
  {
    if c > 0 {
      HalvedAway(n, c - 1);
      assert Halved(n, c - 1) / 2 * 2 * Pow2(c - 1) <= Halved(n, c - 1) * Pow2(c - 1);
    }
  }

  lemma {:induction false} HalvedBelow(n: nat, c: nat)
    requires n < Pow2(c)
    ensures Halved(n, c) == 0
  {
    HalvedAway(n, c);
    if Halved(n, c) >= 1 { TimesAtLeast(Halved(n, c), Pow2(c)); }
  }

  /** Range number i of the stack spans at most 1/2^i of the whole, because the larger part of each
      split was pushed. */
  predicate Narrow(ranges: seq<Range>, n: nat) {
    forall k :: 0 <= k < |ranges| ==> ranges[k].hi - ranges[k].lo < Halved(n, k)
  }

  /** How much there is left to do. */
  function Work(ranges: seq<Range>): int
  {
    if ranges == [] then 0
    else Work(ranges[..|ranges| - 1]) + 2 * (ranges[|ranges| - 1].hi - ranges[|ranges| - 1].lo) + 1
  }

  lemma {:induction false} WorkMore(ranges: seq<Range>, g: Range)
    ensures Work(ranges + [g]) == Work(ranges) + 2 * (g.hi - g.lo) + 1
  {
    assert (ranges + [g])[..|ranges|] == ranges;
  }

  lemma {:induction false} WorkLeft(ranges: seq<Range>, lo: int, hi: int)
    requires RangesApart(ranges, lo, hi)
    ensures Work(ranges) >= 0
  {
    if ranges != [] { WorkLeft(ranges[..|ranges| - 1], lo, hi); }
  }

  /** A range gives way to one of its parts. */
  lemma {:induction false} OnePart(ranges: seq<Range>, g: Range, part: Range, lo: int, hi: int, n: nat)
    requires RangesApart(ranges + [g], lo, hi) && Narrow(ranges + [g], n)
    requires g.lo <= part.lo && part.lo + 2 <= part.hi <= g.hi && part.hi - part.lo < g.hi - g.lo
    ensures RangesApart(ranges + [part], lo, hi) && Narrow(ranges + [part], n)
    ensures 0 <= Work(ranges + [part]) < Work(ranges + [g])
  {
    WorkMore(ranges, g);
    WorkMore(ranges, part);
    var was, now := ranges + [g], ranges + [part];
    assert was[|ranges|] == g;
    forall k | 0 <= k < |now|
      ensures lo <= now[k].lo && now[k].lo + 2 <= now[k].hi <= hi && now[k].hi - now[k].lo < Halved(n, k)
    {
      assert lo <= was[k].lo && was[k].lo + 2 <= was[k].hi <= hi && was[k].hi - was[k].lo < Halved(n, k);
    }
    forall k, m | 0 <= k < m < |now| ensures Apart(now[k], now[m]) {
      assert Apart(was[k], was[m]);
    }
    WorkLeft(now, lo, hi);
  }

  /** A range gives way to both its parts, the larger one below the smaller one on the stack. */
  lemma {:induction false} BothParts(ranges: seq<Range>, g: Range, large: Range, small: Range, lo: int, hi: int, n: nat)
    requires RangesApart(ranges + [g], lo, hi) && Narrow(ranges + [g], n)
    requires g.lo <= large.lo && large.lo + 2 <= large.hi <= g.hi
    requires g.lo <= small.lo && small.lo + 2 <= small.hi <= g.hi
    requires Apart(large, small) && small.hi - small.lo <= large.hi - large.lo
    ensures RangesApart(ranges + [large] + [small], lo, hi) && Narrow(ranges + [large] + [small], n)
    ensures 0 <= Work(ranges + [large] + [small]) < Work(ranges + [g])
  {
    OnePart(ranges, g, large, lo, hi, n);
    OnePart(ranges, g, small, lo, hi, n);
    WorkMore(ranges, g);
    WorkMore(ranges, large);
    WorkMore(ranges + [large], small);
    assert (ranges + [g])[|ranges|] == g;
    assert small.hi - small.lo < Halved(n, |ranges|) / 2 == Halved(n, |ranges| + 1);
    hide Halved, Work, RangesApart, Narrow;
    OneOnTop(ranges, large, small, lo, hi, n);
    WorkLeft(ranges + [large] + [small], lo, hi);
  }

  lemma {:induction false} OneOnTop(ranges: seq<Range>, large: Range, small: Range, lo: int, hi: int, n: nat)
    requires RangesApart(ranges + [large], lo, hi) && Narrow(ranges + [large], n)
      && RangesApart(ranges + [small], lo, hi)
    requires Apart(large, small) && small.hi - small.lo < Halved(n, |ranges| + 1)
    ensures RangesApart(ranges + [large] + [small], lo, hi) && Narrow(ranges + [large] + [small], n)
  {
    hide Halved, Apart;
    var one, two, both := ranges + [large], ranges + [small], ranges + [large] + [small];
    assert two[|ranges|] == small;
    forall k | 0 <= k < |both|
      ensures lo <= both[k].lo && both[k].lo + 2 <= both[k].hi <= hi && both[k].hi - both[k].lo < Halved(n, k)
    {
      if k < |one| { assert both[k] == one[k]; } else { assert both[k] == small; }
    }
    forall k, m | 0 <= k < m < |both| ensures Apart(both[k], both[m]) {
      if m < |one| { assert both[k] == one[k] && both[m] == one[m]; }
      else if k < |ranges| { assert both[k] == two[k] && both[m] == two[|ranges|]; }
    }
  }

  lemma {:induction false} StackSuffices(ranges: seq<Range>, g: Range, n: nat)
    requires Narrow(ranges + [g], n) && g.lo + 2 <= g.hi && n < Pow2(MAX_QSORT_SPLITS)
    ensures |ranges| != MAX_QSORT_SPLITS
  {
    hide Pow2, Halved;
    assert (ranges + [g])[|ranges|] == g;
    HalvedBelow(n, MAX_QSORT_SPLITS);
  }

  /** What the loop of split keeps: the range in hand and the ranges on the stack are all that is
      unsorted, apart, and narrow enough for the stack. */
  ghost predicate Splitting(s: seq<Entry>, lo: int, hi: int, ranges: seq<Range>, n: nat)
    requires 0 <= lo && hi < |s|
  {
    SortedBut(s, lo, hi, ranges) && RangesApart(ranges, lo, hi) && Narrow(ranges, n)
  }

  lemma {:induction false} SplitStep(s: seq<Entry>, t: seq<Entry>, lo: int, hi: int, ranges: seq<Range>, g: Range,
                                     n: nat)
    requires 0 <= lo && hi < |s| && Splitting(s, lo, hi, ranges + [g], n)
    ensures lo <= g.lo && g.lo + 2 <= g.hi <= hi
    ensures Rearranged(s, t, g.lo, g.hi) ==> Splitting(t, lo, hi, ranges + [g], n)
  {
    var all := ranges + [g];
    assert all[|ranges|] == g;
    if Rearranged(s, t, g.lo, g.hi) {
      forall h | h in all && h != g ensures Apart(g, h) {
        var k :| 0 <= k < |ranges| && ranges[k] == h;
        assert Apart(all[k], all[|ranges|]);
      }
      RearrangedInside(s, t, lo, hi, all, g);
    }
  }

  lemma {:induction false} SplitStart(s: seq<Entry>, lo: int, hi: int)
    requires 0 <= lo && lo + 2 <= hi < |s|
    ensures Splitting(s, lo, hi, [] + [Range(lo, hi)], hi - lo + 1) && Rearranged(s, s, lo, hi)
  {
    var g := Range(lo, hi);
    assert [] + [g] == [g];
    forall i, j | lo <= i < j <= hi ensures Same([g], i, j) {
      assert g in [g];
    }
  }

  /** Nothing is left of the range. */
  lemma {:induction false} NoPart(ranges: seq<Range>, g: Range, lo: int, hi: int, n: nat)
    requires RangesApart(ranges + [g], lo, hi) && Narrow(ranges + [g], n)
    ensures RangesApart(ranges, lo, hi) && Narrow(ranges, n)
    ensures 0 <= Work(ranges) < Work(ranges + [g])
  {
    WorkMore(ranges, g);
    var was := ranges + [g];
    assert was[|ranges|] == g;
    forall k | 0 <= k < |ranges|
      ensures lo <= ranges[k].lo && ranges[k].lo + 2 <= ranges[k].hi <= hi && ranges[k].hi - ranges[k].lo < Halved(n, k)
    {
      assert was[k] == ranges[k];
    }
    forall k, m | 0 <= k < m < |ranges| ensures Apart(ranges[k], ranges[m]) {
      assert Apart(was[k], was[m]);
    }
    WorkLeft(ranges, lo, hi);
  }

  lemma {:induction false} NothingOpen(s: seq<Entry>, lo: int, hi: int)
    requires 0 <= lo && hi < |s| && SortedBut(s, lo, hi, [])
    ensures Sorted(s, lo, hi)
  {
    assert forall i, j :: !Same([], i, j);
  }

  /** What remains open after a split, by the sizes of the two parts. */
  lemma {:induction false} SplitOutcome(s: seq<Entry>, lo: int, hi: int, ranges: seq<Range>, g: Range,
                                        leftLast: int, rightFirst: int, n: nat)
    requires 0 <= lo && hi < |s| && Splitting(s, lo, hi, ranges + [g], n) && n < Pow2(MAX_QSORT_SPLITS)
    requires lo <= g.lo && g.lo + 2 <= g.hi <= hi && Parted(s, g.lo, leftLast, rightFirst, g.hi)
    requires leftLast - g.lo < MAX_QSORT_PARTITION ==> Sorted(s, g.lo, leftLast)
    requires g.hi - rightFirst < MAX_QSORT_PARTITION ==> Sorted(s, rightFirst, g.hi)
    ensures var left, right := Range(g.lo, leftLast), Range(rightFirst, g.hi);
      var shortLeft, shortRight := leftLast - g.lo < MAX_QSORT_PARTITION, g.hi - rightFirst < MAX_QSORT_PARTITION;
      if shortLeft && shortRight then
        Open(s, lo, hi, ranges, n, Work(ranges + [g])) && (ranges == [] ==> Sorted(s, lo, hi))
      else if shortLeft then Open(s, lo, hi, ranges + [right], n, Work(ranges + [g]))
      else if shortRight then Open(s, lo, hi, ranges + [left], n, Work(ranges + [g]))
      else
        && |ranges| != MAX_QSORT_SPLITS
        && if leftLast - g.lo > g.hi - rightFirst then Open(s, lo, hi, ranges + [left] + [right], n, Work(ranges + [g]))
           else Open(s, lo, hi, ranges + [right] + [left], n, Work(ranges + [g]))
  {
    hide Parted, Sorted, SortedBut, RangesApart, Narrow, Pow2, Work, Halved;
    PartedBounds(s, g.lo, leftLast, rightFirst, g.hi);
    var left, right := Range(g.lo, leftLast), Range(rightFirst, g.hi);
    var shortLeft, shortRight := leftLast - g.lo < MAX_QSORT_PARTITION, g.hi - rightFirst < MAX_QSORT_PARTITION;
    if shortLeft && shortRight {
      assert ranges + [] == ranges;
      PartsReplace(s, lo, hi, ranges, g, leftLast, rightFirst, []);
      NoPart(ranges, g, lo, hi, n);
      if ranges == [] { NothingOpen(s, lo, hi); }
    } else if shortLeft {
      PartsReplace(s, lo, hi, ranges, g, leftLast, rightFirst, [right]);
      OnePart(ranges, g, right, lo, hi, n);
    } else if shortRight {
      PartsReplace(s, lo, hi, ranges, g, leftLast, rightFirst, [left]);
      OnePart(ranges, g, left, lo, hi, n);
    } else {
      StackSuffices(ranges, g, n);
      if leftLast - g.lo > g.hi - rightFirst {
        PartsReplace(s, lo, hi, ranges, g, leftLast, rightFirst, [left, right]);
        assert ranges + [left] + [right] == ranges + [left, right];
        BothParts(ranges, g, left, right, lo, hi, n);
      } else {
        PartsReplace(s, lo, hi, ranges, g, leftLast, rightFirst, [right, left]);
        assert ranges + [right] + [left] == ranges + [right, left];
        BothParts(ranges, g, right, left, lo, hi, n);
      }
    }
  }

  /** These ranges are what is left, and it is less work than before. */
  ghost predicate Open(s: seq<Entry>, lo: int, hi: int, ranges: seq<Range>, n: nat, before: int)
    requires 0 <= lo && hi < |s|
  {
    Splitting(s, lo, hi, ranges, n) && 0 <= Work(ranges) < before
  }

  predicate Stacked(firsts: seq<int>, lasts: seq<int>, ranges: seq<Range>) {
    && |firsts| == |lasts| == MAX_QSORT_SPLITS && |ranges| <= MAX_QSORT_SPLITS
    && forall k :: 0 <= k < |ranges| ==> ranges[k] == Range(firsts[k], lasts[k])
  }

  /** split: sorts the range.  The range in hand is first..last; the larger part of a split goes on the
      stack, so the stack never overflows. */
  method Split(a: array<Entry>, lo: nat, hi: nat)
    requires lo + 2 <= hi < a.Length && hi - lo + 1 < Pow2(MAX_QSORT_SPLITS)
    modifies a
    ensures Sorted(a[..], lo, hi) && Rearranged(old(a[..]), a[..], lo, hi)
  {
    hide Rearranged, Sorted, Splitting, Parted, RangesApart, Pow2;
    var firsts, lasts := new int[MAX_QSORT_SPLITS], new int[MAX_QSORT_SPLITS];
    var splits: nat := 0;
    var first, last := lo, hi;
    ghost var n := hi - lo + 1;
    ghost var ranges: seq<Range> := [];
    SplitStart(a[..], lo, hi);
    while true
      invariant Splitting(a[..], lo, hi, ranges + [Range(first, last)], n)
      invariant splits == |ranges| && Stacked(firsts[..], lasts[..], ranges)
      invariant Rearranged(old(a[..]), a[..], lo, hi)
      decreases Work(ranges + [Range(first, last)])
    {
      ghost var s, g := a[..], Range(first, last);
      SplitStep(s, s, lo, hi, ranges, g, n);
      var leftLast, rightFirst := SplitOnce(a, first, last);
      SplitStep(s, a[..], lo, hi, ranges, g, n);
      RearrangedWider(s, a[..], first, last, lo, hi);
      RearrangedTwice(old(a[..]), s, a[..], lo, hi);
      PartedBounds(a[..], first, leftLast, rightFirst, last);
      SplitOutcome(a[..], lo, hi, ranges, g, leftLast, rightFirst, n);
      if leftLast - first < MAX_QSORT_PARTITION {
        if last - rightFirst < MAX_QSORT_PARTITION {
          if splits == 0 {
            break;
          }
          splits := splits - 1;
          first, last := firsts[splits], lasts[splits];
          assert ranges[..splits] + [ranges[splits]] == ranges;
          ranges := ranges[..splits];
        } else {
          first := rightFirst;
        }
      } else if last - rightFirst < MAX_QSORT_PARTITION {
        last := leftLast;
      } else {
        if splits >= MAX_QSORT_SPLITS {
          assert false;
        }
        if leftLast - first > last - rightFirst {
          firsts[splits], lasts[splits] := first, leftLast;
          ranges := ranges + [Range(first, leftLast)];
          first := rightFirst;
        } else {
          firsts[splits], lasts[splits] := rightFirst, last;
          ranges := ranges + [Range(rightFirst, last)];
          last := leftLast;
        }
        splits := splits + 1;
      }
    }
  }
}
