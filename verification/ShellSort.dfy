/** Shell sort in place: insertion sort of every column, for halving step sizes. */
module ShellSort {
  import opened Arithmetic
  import opened Permutations

  /** Elements a step apart are in order. */
  ghost predicate StepSorted(s: seq<int>, step: int) {
    step >= 1 && forall u, v :: 0 <= u && v == u + step && v < |s| ==> s[u] <= s[v]
  }

  // ---------------------------------------------------------------- columns

  /** How many elements there are at r, r + step, r + 2 * step, ... */
  function Rows(n: nat, step: nat, r: nat): nat
    requires step >= 1
  {
    if r < n then (n - 1 - r) / step + 1 else 0
  }

  function Place(step: nat, r: nat, p: nat): nat { r + p * step }

  lemma {:induction false} NextPlace(step: nat, r: nat, p: nat)
    ensures Place(step, r, p + 1) == Place(step, r, p) + step
  {
  }

  lemma {:induction false} PlaceInside(n: nat, step: nat, r: nat, p: nat)
    requires step >= 1
    ensures p < Rows(n, step, r) <==> Place(step, r, p) < n
  {
    if r < n {
      Quotient(n - 1 - r, step);
      RowsFit(n, step, r, p, (n - 1 - r) / step, (n - 1 - r) % step);
    }
  }

  lemma {:induction false} RowsFit(n: nat, step: nat, r: nat, p: nat, q: nat, rest: nat)
    requires n - 1 - r == q * step + rest && rest < step
    ensures p < q + 1 <==> Place(step, r, p) < n
  {
    NextPlace(step, r, q);
    if p <= q { Times(p, q, step); } else { Times(q + 1, p, step); }
  }

  function Column(s: seq<int>, step: nat, r: nat): (c: seq<int>)
    requires step >= 1
    ensures |c| == Rows(|s|, step, r)
  {
    seq(Rows(|s|, step, r), p requires 0 <= p < Rows(|s|, step, r) =>
      (PlaceInside(|s|, step, r, p); s[Place(step, r, p)]))
  }

  lemma {:induction false} ColumnAt(s: seq<int>, step: nat, r: nat, p: nat)
    requires step >= 1
    ensures p < |Column(s, step, r)| <==> Place(step, r, p) < |s|
    ensures p < |Column(s, step, r)| ==> Column(s, step, r)[p] == s[Place(step, r, p)]
  {
    PlaceInside(|s|, step, r, p);
    hide Rows, Place;
  }

  /** Every column holds what it held. */
  ghost predicate SameColumns(s: seq<int>, t: seq<int>, step: nat) {
    && step >= 1 && |s| == |t|
    && forall r :: 0 <= r < step ==> multiset(Column(s, step, r)) == multiset(Column(t, step, r))
  }

  lemma {:induction false} PlaceInjective(step: nat, r: nat, p: nat, r': nat, p': nat)
    requires r < step && r' < step
    ensures Place(step, r, p) == Place(step, r', p') ==> r == r' && p == p'
  {
    if p < p' { Times(p + 1, p', step); NextPlace(step, r, p); }
    if p' < p { Times(p' + 1, p, step); NextPlace(step, r', p'); }
  }

  lemma {:induction false} PlaceOf(step: nat, m: nat)
    requires step >= 1
    ensures m % step < step && Place(step, m % step, m / step) == m && Place(step, m % step, m / step + 1) == m + step
  {
    Quotient(m, step);
    NextPlace(step, m % step, m / step);
  }

  /** Exchanging neighbours of a column rearranges that column and no other. */
  lemma {:induction false} SwapInColumn(s: seq<int>, step: nat, m: nat)
    requires step >= 1 && m + step < |s|
    ensures SameColumns(s, Swapped(s, m, m + step), step)
  {
    hide Column, Rows, Place;
    var t, r0, p0 := Swapped(s, m, m + step), m % step, m / step;
    PlaceOf(step, m);
    forall r | 0 <= r < step ensures multiset(Column(s, step, r)) == multiset(Column(t, step, r)) {
      SwappedColumn(s, step, m, r0, p0, r);
    }
  }

  lemma {:induction false} SwappedColumn(s: seq<int>, step: nat, m: nat, r0: nat, p0: nat, r: nat)
    requires m + step < |s| && r0 < step && r < step && Place(step, r0, p0) == m && Place(step, r0, p0 + 1) == m + step
    ensures multiset(Column(s, step, r)) == multiset(Column(Swapped(s, m, m + step), step, r))
  {
    hide Column, Rows, Place;
    var t := Swapped(s, m, m + step);
    var c, d := Column(s, step, r), Column(t, step, r);
    assert |c| == |d|;
    ColumnAt(s, step, r0, p0);
    ColumnAt(s, step, r0, p0 + 1);
    forall p | 0 <= p < |c|
      ensures d[p] == if r == r0 && p == p0 then c[p0 + 1] else if r == r0 && p == p0 + 1 then c[p0] else c[p]
    {
      ColumnAt(s, step, r, p);
      ColumnAt(t, step, r, p);
      PlaceInjective(step, r, p, r0, p0);
      PlaceInjective(step, r, p, r0, p0 + 1);
    }
    if r == r0 {
      SwapRearranges(c, p0, p0 + 1, 0, |c| - 1);
      assert d == Swapped(c, p0, p0 + 1);
      WholeRearranged(c, d);
    } else {
      assert c == d;
    }
  }

  // ---------------------------------------------------------------- an earlier order survives

  function CountUpTo(s: seq<int>, v: int): (n: nat)
    ensures n <= |s|
  {
    if s == [] then 0 else CountUpTo(s[..|s| - 1], v) + if s[|s| - 1] <= v then 1 else 0
  }

  lemma {:induction false} CountConcat(s: seq<int>, t: seq<int>, v: int)
    ensures CountUpTo(s + t, v) == CountUpTo(s, v) + CountUpTo(t, v)
  {
    if t == [] {
      assert s + t == s;
    } else {
      assert (s + t)[..|s + t| - 1] == s + t[..|t| - 1];
      CountConcat(s, t[..|t| - 1], v);
    }
  }

  lemma {:induction false} WithoutOne(s: seq<int>, j: nat, v: int)
    requires j < |s|
    ensures CountUpTo(s, v) == CountUpTo(s[..j] + s[j + 1..], v) + if s[j] <= v then 1 else 0
  {
    assert s == s[..j] + [s[j]] + s[j + 1..];
    CountConcat(s[..j] + [s[j]], s[j + 1..], v);
    CountConcat(s[..j], [s[j]], v);
    CountConcat(s[..j], s[j + 1..], v);
    assert CountUpTo([s[j]], v) == if s[j] <= v then 1 else 0 by { assert [s[j]][..0] == []; }
  }

  lemma {:induction false} CountOfPermutation(s: seq<int>, t: seq<int>, v: int)
    requires multiset(s) == multiset(t)
    decreases |s|
    ensures CountUpTo(s, v) == CountUpTo(t, v)
  {
    if s == [] {
      NoElements(t);
    } else {
      var j := FirstElement(s, t);
      CountOfPermutation(s[1..], t[..j] + t[j + 1..], v);
      WithoutOne(s, 0, v);
      WithoutOne(t, j, v);
      assert s[..0] + s[1..] == s[1..];
    }
  }

  predicate Ascending(s: seq<int>) {
    forall i, j :: 0 <= i <= j < |s| ==> s[i] <= s[j]
  }

  lemma {:induction false} AllCount(s: seq<int>, v: int)
    requires forall i :: 0 <= i < |s| ==> s[i] <= v
    ensures CountUpTo(s, v) == |s|
  {
    if s != [] { AllCount(s[..|s| - 1], v); }
  }

  lemma {:induction false} NoneCount(s: seq<int>, v: int)
    requires forall i :: 0 <= i < |s| ==> s[i] > v
    ensures CountUpTo(s, v) == 0
  {
    if s != [] { NoneCount(s[..|s| - 1], v); }
  }

  /** In a sorted sequence, the p-th element is at most v exactly when more than p elements are. */
  lemma {:induction false} RankAtMost(s: seq<int>, p: nat, v: int)
    requires Ascending(s) && p < |s|
    ensures s[p] <= v <==> CountUpTo(s, v) > p
  {
    if s[p] <= v {
      assert s == s[..p + 1] + s[p + 1..];
      CountConcat(s[..p + 1], s[p + 1..], v);
      AllCount(s[..p + 1], v);
    } else {
      assert s == s[..p] + s[p..];
      CountConcat(s[..p], s[p..], v);
      NoneCount(s[p..], v);
    }
  }

  lemma {:induction false} SmallerCountsMore(s: seq<int>, t: seq<int>, v: int)
    requires |s| == |t| && forall i :: 0 <= i < |s| ==> s[i] <= t[i]
    ensures CountUpTo(s, v) >= CountUpTo(t, v)
  {
    if s != [] { SmallerCountsMore(s[..|s| - 1], t[..|t| - 1], v); }
  }

  /** Two sequences ordered against each other, d places apart, stay so when both are sorted. */
  lemma {:induction false} SortedStayOrdered(x: seq<int>, y: seq<int>, xs: seq<int>, ys: seq<int>, d: nat, p: nat)
    requires multiset(x) == multiset(xs) && multiset(y) == multiset(ys) && Ascending(xs) && Ascending(ys)
    requires |x| == |xs| && |y| == |ys| && |y| <= |x| + d && p < |x| && p + d < |y|
    requires forall q :: 0 <= q && q + d < |y| ==> x[q] <= y[q + d]
    ensures xs[p] <= ys[p + d]
  {
    var v := ys[p + d];
    RankAtMost(ys, p + d, v);
    CountOfPermutation(y, ys, v);
    assert y == y[..d] + y[d..];
    CountConcat(y[..d], y[d..], v);
    var n := |y| - d;
    SmallerCountsMore(x[..n], y[d..], v);
    assert x == x[..n] + x[n..];
    CountConcat(x[..n], x[n..], v);
    CountOfPermutation(x, xs, v);
    RankAtMost(xs, p, v);
  }

  lemma {:induction false} ColumnAscends(s: seq<int>, step: nat, r: nat)
    requires StepSorted(s, step)
    ensures Ascending(Column(s, step, r))
  {
    hide Column, Rows, Place;
    var c := Column(s, step, r);
    forall i | 0 <= i && i + 1 < |c| ensures c[i] <= c[i + 1] {
      ColumnAt(s, step, r, i);
      ColumnAt(s, step, r, i + 1);
      NextPlace(step, r, i);
    }
    NeighboursSuffice(c);
  }

  lemma {:induction false} NeighboursSuffice(c: seq<int>)
    requires forall i :: 0 <= i && i + 1 < |c| ==> c[i] <= c[i + 1]
    ensures Ascending(c)
  {
    if |c| > 1 {
      var n := |c| - 1;
      NeighboursSuffice(c[..n]);
      forall i, j | 0 <= i <= j < |c| ensures c[i] <= c[j] {
        if j == n && i < n {
          assert c[..n][i] <= c[..n][n - 1];
          assert c[n - 1] <= c[n - 1 + 1];
        } else if j < n {
          assert c[..n][i] <= c[..n][j];
        }
      }
    }
  }

  /** The place h further on is in column (r + h) % step, (r + h) / step rows down. */
  lemma {:induction false} PlaceFurther(step: nat, r: nat, q: nat, h: nat)
    requires r < step
    ensures (r + h) % step < step
    ensures Place(step, r, q) + h == Place(step, (r + h) % step, q + (r + h) / step)
  {
    Quotient(r + h, step);
    Distributes(q, (r + h) / step, step);
  }

  lemma {:induction false} EarlierOrdersSurvive(s: seq<int>, t: seq<int>, steps: seq<nat>, step: nat)
    requires StepSorted(t, step) && SameColumns(s, t, step)
    requires forall k :: 0 <= k < |steps| ==> StepSorted(s, steps[k])
    ensures forall k :: 0 <= k < |steps| ==> StepSorted(t, steps[k])
  {
    hide StepSorted, SameColumns;
    forall k | 0 <= k < |steps| ensures StepSorted(t, steps[k]) {
      EarlierOrderSurvives(s, t, steps[k], step);
    }
  }

  /** Sorting the columns of one step keeps the order of any earlier step. */
  lemma {:induction false} EarlierOrderSurvives(s: seq<int>, t: seq<int>, h: int, step: nat)
    requires StepSorted(s, h) && StepSorted(t, step) && SameColumns(s, t, step)
    ensures StepSorted(t, h)
  {
    forall i | 0 <= i && i + h < |t| ensures t[i] <= t[i + h] {
      PlaceOf(step, i);
      PlaceFurther(step, i % step, i / step, h);
      PairSurvives(s, t, h, step, i % step, (i % step + h) % step, (i % step + h) / step, i / step, i);
    }
  }

  lemma {:induction false} PairSurvives(s: seq<int>, t: seq<int>, h: int, step: nat, r: nat, r': nat, d: nat, p: nat,
                                        i: nat)
    requires StepSorted(s, h) && StepSorted(t, step) && SameColumns(s, t, step) && i + h < |t|
    requires r < step && r' < step && r' == (r + h) % step && d == (r + h) / step
    requires Place(step, r, p) == i && Place(step, r', p + d) == i + h
    ensures t[i] <= t[i + h]
  {
    assert h >= 1;
    hide Column, Rows, Place, StepSorted;
    var x, y, xs, ys := Column(s, step, r), Column(s, step, r'), Column(t, step, r), Column(t, step, r');
    ColumnAscends(t, step, r);
    ColumnAscends(t, step, r');
    ColumnAt(t, step, r, p);
    ColumnAt(t, step, r', p + d);
    forall q: nat ensures Place(step, r, q) + h == Place(step, r', q + d) {
      PlaceFurther(step, r, q, h);
    }
    ColumnsPaired(s, h, step, r, d, r');
    SortedStayOrdered(x, y, xs, ys, d, p);
  }

  lemma {:induction false} ColumnsPaired(s: seq<int>, h: int, step: nat, r: nat, d: nat, r': nat)
    requires StepSorted(s, h) && step >= 1
    requires forall q: nat :: Place(step, r, q) + h == Place(step, r', q + d)
    ensures var x, y := Column(s, step, r), Column(s, step, r');
      |y| <= |x| + d && forall q :: 0 <= q && q + d < |y| ==> q < |x| && x[q] <= y[q + d]
  {
    hide Column, Rows, Place;
    var x, y := Column(s, step, r), Column(s, step, r');
    forall q | 0 <= q && q + d < |y| ensures q < |x| && x[q] <= y[q + d] {
      ColumnAt(s, step, r', q + d);
      ColumnAt(s, step, r, q);
    }
    if |y| > |x| + d {
      ColumnAt(s, step, r', |x| + d);
      ColumnAt(s, step, r, |x|);
    }
  }

  // ---------------------------------------------------------------- the sort

  /** All elements up to i are in step order, except perhaps the one at `hole` against the one a step
      before it; skipping it, the order holds. */
  ghost predicate InOrderBut(s: seq<int>, step: nat, i: int, hole: int) {
    && step >= 1 && hole <= i < |s|
    && (forall u, v :: 0 <= u && v == u + step && v <= i && v != hole ==> s[u] <= s[v])
    && (hole - step >= 0 && hole + step <= i ==> s[hole - step] <= s[hole + step])
  }

  ghost predicate InOrder(s: seq<int>, step: nat, i: int) {
    step >= 1 && i < |s| && forall u, v :: 0 <= u && v == u + step && v <= i ==> s[u] <= s[v]
  }

  lemma {:induction false} HoleMoves(s: seq<int>, step: nat, i: int, hole: int)
    requires InOrderBut(s, step, i, hole) && hole - step >= 0 && s[hole] < s[hole - step]
    ensures InOrderBut(Swapped(s, hole - step, hole), step, i, hole - step)
  {
  }

  lemma {:induction false} NextHole(s: seq<int>, step: nat, i: int)
    requires InOrder(s, step, i - 1) && step <= i < |s|
    ensures InOrderBut(s, step, i, i)
  {
  }

  lemma {:induction false} HoleFilled(s: seq<int>, step: nat, i: int, hole: int)
    requires InOrderBut(s, step, i, hole) && (hole - step >= 0 ==> s[hole - step] <= s[hole])
    ensures InOrder(s, step, i)
  {
  }

  /** A hole that nothing larger is above is where the element belongs. */
  lemma {:induction false} HoleSettles(a: seq<int>, s: seq<int>, step: nat, i: int, hole: int, temp: int)
    requires 0 <= hole < |a| && step >= 1 && s == a[hole := temp] && InOrderBut(s, step, i, hole)
    requires hole - step >= 0 ==> a[hole - step] <= temp
    ensures InOrder(s, step, i)
  {
    HoleFilled(s, step, i, hole);
  }

  ghost predicate SameElements(s: seq<int>, t: seq<int>, step: nat) {
    SameColumns(s, t, step) && multiset(s) == multiset(t)
  }

  lemma {:induction false} SwapKeepsElements(s: seq<int>, t: seq<int>, step: nat, m: nat)
    requires step >= 1 && m + step < |t| && SameElements(s, t, step)
    ensures SameElements(s, Swapped(t, m, m + step), step)
  {
    hide Rearranged, Swapped, Column;
    SwapInColumn(t, step, m);
    SwapRearranges(t, m, m + step, 0, |t| - 1);
    WholeRearranged(t, Swapped(t, m, m + step));
  }

  /** The element a step before the hole moves into it. */
  method PullDown(a: array<int>, hole: nat, j: nat, ghost step: nat, ghost i: nat, ghost temp: int, ghost s: seq<int>)
    returns (ghost t: seq<int>)
    requires step >= 1 && j + step == hole <= i < a.Length && s == a[..][hole := temp] && temp < a[j]
    requires InOrderBut(s, step, i, hole)
    modifies a
    ensures t == a[..][j := temp] && InOrderBut(t, step, i, j) && SameElements(s, t, step)
  {
    hide SameElements, Swapped, InOrderBut;
    HoleMoved(a[..], s, hole, j, temp);
    HoleMoves(s, step, i, hole);
    Unchanged(s, step);
    SwapKeepsElements(s, s, step, j);
    t := Swapped(s, j, hole);
    Put(a, hole, a[j]);
  }

  /** The while loop: larger elements of the column move down a step, and the hole ends up where the
      element taken out belongs. */
  method FindPlace(a: array<int>, step: nat, i: nat, temp: int) returns (j: int, ghost s: seq<int>)
    requires 1 <= step <= i < a.Length && temp == a[i] && InOrder(a[..], step, i - 1)
    modifies a
    ensures 0 <= j + step <= i && s == a[..][j + step := temp] && (j + step == i ==> a[..] == s)
    ensures InOrder(s, step, i) && SameElements(old(a[..]), s, step)
  {
    ghost var orig := a[..];
    j, s := i - step, orig;
    hide SameElements, Swapped, InOrderBut, InOrder;
    NextHole(s, step, i);
    Unchanged(s, step);
    while j >= 0 && temp < a[j]
      invariant 0 <= j + step <= i && s == a[..][j + step := temp] && (j + step == i ==> a[..] == s)
      invariant InOrderBut(s, step, i, j + step) && SameElements(orig, s, step)
      decreases j
    {
      ghost var before := s;
      s := PullDown(a, j + step, j, step, i, temp, s);
      SameTwice(orig, before, s, step);
      j := j - step;
    }
    HoleSettles(a[..], s, step, i, j + step, temp);
  }

  /** The body of the for loop: element i sinks in its column. */
  method Sink(a: array<int>, step: nat, i: nat)
    requires 1 <= step <= i < a.Length && InOrder(a[..], step, i - 1)
    modifies a
    ensures InOrder(a[..], step, i) && SameElements(old(a[..]), a[..], step)
  {
    hide SameElements, InOrder;
    var temp := a[i];
    var j, s := FindPlace(a, step, i, temp);
    if i != j + step {
      Put(a, j + step, temp);
    }
  }

  lemma {:induction false} Unchanged(s: seq<int>, step: nat)
    requires step >= 1
    ensures SameElements(s, s, step)
  {
  }

  lemma {:induction false} SameTwice(s: seq<int>, t: seq<int>, u: seq<int>, step: nat)
    requires SameElements(s, t, step) && SameElements(t, u, step)
    ensures SameElements(s, u, step)
  {
  }

  /** One pass: every column is sorted in place. */
  method Pass(a: array<int>, step: nat)
    requires 1 <= step < a.Length
    modifies a
    ensures StepSorted(a[..], step) && SameElements(old(a[..]), a[..], step)
  {
    hide SameElements;
    Unchanged(a[..], step);
    var i := step;
    while i < a.Length
      invariant step <= i <= a.Length && InOrder(a[..], step, i - 1) && SameElements(old(a[..]), a[..], step)
    {
      ghost var s := a[..];
      Sink(a, step, i);
      SameTwice(old(a[..]), s, a[..], step);
      i := i + 1;
    }
  }

  /** shell_sort: the steps halve down to 1; every step that was sorted for stays sorted for. */
  method Sort(a: array<int>) returns (ghost steps: seq<nat>)
    modifies a
    ensures forall i, j :: 0 <= i < j < a.Length ==> a[i] <= a[j]
    ensures multiset(a[..]) == multiset(old(a[..]))
    ensures a.Length >= 2 ==> steps != [] && steps[0] == a.Length / 2 && steps[|steps| - 1] == 1
    ensures forall k :: 0 <= k < |steps| - 1 ==> steps[k + 1] == steps[k] / 2
    ensures forall k :: 0 <= k < |steps| ==> StepSorted(a[..], steps[k])
  {
    hide SameElements;
    steps := [];
    var step := a.Length / 2;
    while step >= 1
      invariant 0 <= step < a.Length || step == 0
      invariant if steps == [] then step == a.Length / 2 else steps[0] == a.Length / 2 && step == steps[|steps| - 1] / 2
      invariant forall k :: 0 <= k < |steps| - 1 ==> steps[k + 1] == steps[k] / 2
      invariant forall k :: 0 <= k < |steps| ==> StepSorted(a[..], steps[k])
      invariant multiset(a[..]) == multiset(old(a[..]))
      decreases step
    {
      ghost var s := a[..];
      Pass(a, step);
      SameParts(s, a[..], step);
      EarlierOrdersSurvive(s, a[..], steps, step);
      steps := steps + [step];
      step := step / 2;
    }
    if a.Length >= 2 {
      NeighboursSuffice(a[..]);
    }
  }

  lemma {:induction false} SameParts(s: seq<int>, t: seq<int>, step: nat)
    requires SameElements(s, t, step)
    ensures SameColumns(s, t, step) && multiset(s) == multiset(t)
  {
  }
}
