/** Rearranging a range of a sequence. */
module Permutations {

  /** Range lo..hi was rearranged and the rest left alone. */
  predicate Rearranged<T(==)>(s: seq<T>, t: seq<T>, lo: int, hi: int)
    requires 0 <= lo <= hi + 1 <= |s|
  {
    && |t| == |s|
    && (forall k :: 0 <= k < |s| && !(lo <= k <= hi) ==> t[k] == s[k])
    && multiset(t[lo..hi + 1]) == multiset(s[lo..hi + 1])
  }

  function Swapped<T>(s: seq<T>, i: nat, j: nat): seq<T>
    requires i < |s| && j < |s|
  {
    s[i := s[j]][j := s[i]]
  }

  lemma {:induction false} SwapRearranges<T>(s: seq<T>, i: nat, j: nat, lo: int, hi: int)
    requires 0 <= lo <= i <= hi < |s| && lo <= j <= hi
    ensures Rearranged(s, Swapped(s, i, j), lo, hi)
  {
    var m := s[lo..hi + 1];
    var m' := m[i - lo := m[j - lo]][j - lo := m[i - lo]];
    assert Swapped(s, i, j)[lo..hi + 1] == m';
    assert multiset(m') == multiset(m);
  }

  lemma {:induction false} NotRearranged<T>(s: seq<T>, lo: int, hi: int)
    requires 0 <= lo <= hi + 1 <= |s|
    ensures Rearranged(s, s, lo, hi)
  {
  }

  lemma {:induction false} WholeRearranged<T>(s: seq<T>, t: seq<T>)
    requires Rearranged(s, t, 0, |s| - 1)
    ensures multiset(s) == multiset(t)
  {
    assert s[0..|s|] == s && t[0..|t|] == t;
  }

  lemma {:induction false} RearrangedTwice<T>(s: seq<T>, t: seq<T>, u: seq<T>, lo: int, hi: int)
    requires 0 <= lo <= hi + 1 <= |s| && Rearranged(s, t, lo, hi) && Rearranged(t, u, lo, hi)
    ensures Rearranged(s, u, lo, hi)
  {
  }

  lemma {:induction false} RearrangedWider<T>(s: seq<T>, t: seq<T>, lo: int, hi: int, lo': int, hi': int)
    requires 0 <= lo' <= lo <= hi + 1 <= hi' + 1 <= |s| && Rearranged(s, t, lo, hi)
    ensures Rearranged(s, t, lo', hi')
  {
    assert s[lo'..hi' + 1] == s[lo'..lo] + s[lo..hi + 1] + s[hi + 1..hi' + 1];
    assert t[lo'..hi' + 1] == t[lo'..lo] + t[lo..hi + 1] + t[hi + 1..hi' + 1];
    assert t[lo'..lo] == s[lo'..lo];
    assert t[hi + 1..hi' + 1] == s[hi + 1..hi' + 1];
  }

  /** What stands in the range now stood in it before. */
  lemma {:induction false} CameFrom<T>(s: seq<T>, t: seq<T>, lo: int, hi: int, k: int) returns (j: int)
    requires 0 <= lo <= hi + 1 <= |s| && Rearranged(s, t, lo, hi) && lo <= k <= hi
    ensures lo <= j <= hi && s[j] == t[k]
  {
    var m := t[lo..hi + 1];
    assert m[k - lo] == t[k] && t[k] in m;
    assert t[k] in multiset(m);
    assert t[k] in s[lo..hi + 1];
    var d :| 0 <= d < |s[lo..hi + 1]| && s[lo..hi + 1][d] == t[k];
    j := lo + d;
  }

  /** Element `outer` moved down to `inner`. */
  function Shifted<T>(s: seq<T>, inner: nat, outer: nat): seq<T>
    requires inner <= outer < |s|
  {
    s[..inner] + [s[outer]] + s[inner..outer] + s[outer + 1..]
  }

  lemma {:induction false} ShiftedAt<T>(s: seq<T>, inner: nat, outer: nat, k: nat)
    requires inner <= outer < |s| && k < |s|
    ensures |Shifted(s, inner, outer)| == |s|
    ensures Shifted(s, inner, outer)[k] ==
      if inner <= k <= outer then (if k == inner then s[outer] else s[k - 1]) else s[k]
  {
  }

  lemma {:induction false} ExchangedParts<T>(a: seq<T>, b: seq<T>, c: seq<T>, d: seq<T>)
    ensures multiset(a + b + c + d) == multiset(a + c + b + d)
  {
  }

  lemma {:induction false} ShiftRearranges<T>(s: seq<T>, inner: nat, outer: nat, lo: int, hi: int)
    requires 0 <= lo <= inner <= outer <= hi < |s|
    ensures Rearranged(s, Shifted(s, inner, outer), lo, hi)
  {
    var t := Shifted(s, inner, outer);
    ShiftedAt(s, inner, outer, inner);
    hide Shifted;
    var a, b, c, d := s[lo..inner], s[inner..outer], [s[outer]], s[outer + 1..hi + 1];
    assert s[lo..hi + 1] == a + b + c + d;
    forall k | 0 <= k < hi + 1 - lo ensures t[lo..hi + 1][k] == (a + c + b + d)[k] {
      ShiftedAt(s, inner, outer, lo + k);
    }
    assert t[lo..hi + 1] == a + c + b + d;
    ExchangedParts(a, b, c, d);
    forall k | 0 <= k < |s| && !(lo <= k <= hi) ensures t[k] == s[k] {
      ShiftedAt(s, inner, outer, k);
    }
  }

  /** An element taken out at `hole`, its place to be taken by the one at j: the same as exchanging the two. */
  lemma {:induction false} HoleMoved<T>(a: seq<T>, s: seq<T>, hole: nat, j: nat, taken: T)
    requires hole < |a| && j < |a| && j != hole && s == a[hole := taken]
    ensures s[j] == a[j] && s[hole] == taken
    ensures Swapped(s, j, hole) == a[hole := a[j]][j := taken] == Swapped(s, hole, j)
  {
  }

  method Put<T>(a: array<T>, i: nat, x: T)
    requires i < a.Length
    modifies a
    ensures a[..] == old(a[..])[i := x]
  {
    a[i] := x;
  }

  lemma {:induction false} Without<T>(s: seq<T>, j: nat)
    requires j < |s|
    ensures multiset(s[..j] + s[j + 1..]) == multiset(s) - multiset{s[j]}
  {
    assert s == s[..j] + [s[j]] + s[j + 1..];
  }

  /** The first element is somewhere in the other arrangement, and the rest are rearrangements again. */
  lemma {:induction false} FirstElement<T>(s: seq<T>, t: seq<T>) returns (j: nat)
    requires multiset(s) == multiset(t) && s != []
    ensures j < |t| && t[j] == s[0] && multiset(s[1..]) == multiset(t[..j] + t[j + 1..])
  {
    assert s[0] in multiset(s);
    assert s[0] in t;
    j :| 0 <= j < |t| && t[j] == s[0];
    Without(s, 0);
    Without(t, j);
    assert s[..0] + s[1..] == s[1..];
  }

  lemma {:induction false} NoElements<T>(t: seq<T>)
    requires multiset(t) == multiset{}
    ensures t == []
  {
    assert |multiset(t)| == 0;
  }
}
