/** rotate_left: rotates a list in place, by chains of the offset where the offset divides the length
    and by one walk around the list where it does not. */
module Rotate {
  import opened Arithmetic

  datatype Outcome = Done | ZeroDivision | IndexError

  // ---------------------------------------------------------------- arithmetic

  predicate Divides(d: int, a: int)
    requires d > 0
  {
    a % d == 0
  }

  lemma {:induction false} DividesTimes(d: int, a: int, k: int)
    requires d > 0 && Divides(d, a)
    ensures Divides(d, k * a)
  {
    Quotient(a, d);
    assert k * a == 0 + k * (a / d) * d;
    SameRemainder(0, k * (a / d), d);
  }

  lemma {:induction false} Multiple(q: int, d: int)
    requires d > 0
    ensures Divides(d, q * d)
  {
    SameRemainder(0, q, d);
  }

  lemma {:induction false} DividesSum(d: int, a: int, b: int)
    requires d > 0 && Divides(d, a) && Divides(d, b)
    ensures Divides(d, a + b) && Divides(d, a - b)
  {
    Quotient(a, d);
    Quotient(b, d);
    Distributes(a / d, b / d, d);
    Distributes(a / d, -(b / d), d);
    Multiple(a / d + b / d, d);
    Multiple(a / d - b / d, d);
  }

  /** The remainder keeps common divisors. */
  lemma {:induction false} DividesRemainder(d: int, a: int, n: int)
    requires d > 0 && n > 0 && Divides(d, a) && Divides(d, n)
    ensures Divides(d, a % n)
  {
    Quotient(a, n);
    DividesTimes(d, n, a / n);
    DividesSum(d, a, a / n * n);
  }

  function Abs(a: int): nat { if a < 0 then 0 - a else a }

  function Gcd(a: nat, b: nat): (g: nat)
    requires a > 0 || b > 0
    ensures g > 0
    decreases b
  {
    if b == 0 then a else Gcd(b, a % b)
  }

  lemma {:induction false} GcdDivides(a: nat, b: nat)
    requires a > 0 || b > 0
    decreases b
    ensures Divides(Gcd(a, b), a) && Divides(Gcd(a, b), b)
  {
    var g := Gcd(a, b);
    if b == 0 {
      SameRemainder(0, 1, a);
      assert 0 % a == 0;
    } else {
      GcdDivides(b, a % b);
      Quotient(a, b);
      DividesTimes(g, b, a / b);
      DividesSum(g, a / b * b, a % b);
    }
  }

  /** The greatest common divisor as a combination of the two numbers. */
  lemma {:induction false} Bezout(a: nat, b: nat) returns (u: int, v: int)
    requires a > 0 || b > 0
    decreases b
    ensures u * a + v * b == Gcd(a, b)
  {
    if b == 0 {
      u, v := 1, 0;
    } else {
      var u', v' := Bezout(b, a % b);
      Quotient(a, b);
      u, v := v', u' - v' * (a / b);
      assert v * b == u' * b - v' * (a / b) * b;
      assert v' * (a % b) == v' * a - v' * (a / b * b);
    }
  }

  /** A number coprime to n can be cancelled. */
  lemma {:induction false} Cancel(n: nat, off: int, k: int)
    requires n > 0 && Gcd(Abs(off), n) == 1 && Divides(n, k * off)
    ensures Divides(n, k)
  {
    var u, v := Bezout(Abs(off), n);
    var s := if off < 0 then -1 else 1;
    assert Abs(off) == s * off;
    var w := u * s;
    assert w * off + v * n == 1;
    assert k == w * (k * off) + k * v * n;
    DividesTimes(n, k * off, w);
    SameRemainder(w * (k * off), k * v, n);
  }

  lemma {:induction false} EqualRemainders(n: nat, a: int, b: int)
    requires n > 0 && a % n == b % n
    ensures Divides(n, b - a)
  {
    Quotient(a, n);
    Quotient(b, n);
    Distributes(b / n, -(a / n), n);
    Multiple(b / n - a / n, n);
  }

  lemma {:induction false} Product(i: int, j: int, off: int)
    ensures j * off - i * off == (j - i) * off
  {
  }

  /** The walk 0, off, 2 * off, ... around n places meets no place twice in n steps. */
  lemma {:induction false} WalkInjective(n: nat, off: int, i: nat, j: nat)
    requires n > 0 && Gcd(Abs(off), n) == 1 && i < j < n
    ensures (i * off) % n != (j * off) % n
  {
    if (i * off) % n == (j * off) % n {
      EqualRemainders(n, i * off, j * off);
      Product(i, j, off);
      Cancel(n, off, j - i);
      SmallRemainder(j - i, n);
    }
  }

  // ---------------------------------------------------------------- what is computed

  /** The rotation that is asked for. */
  function Rotated(s: seq<int>, off: int): (r: seq<int>)
    ensures |r| == |s|
  {
    seq(|s|, i requires 0 <= i < |s| => s[(i + off) % |s|])
  }

  /** The list after i steps of the walk. */
  function Walk(s: seq<int>, off: int, i: nat): (r: seq<int>)
    requires s != []
    ensures |r| == |s|
  {
    if i == 0 then s
    else
      var t := Walk(s, off, i - 1);
      t[((i - 1) * off) % |s| := t[(i * off) % |s|]]
  }

  /** What the code leaves in the list. */
  function Result(s: seq<int>, off: int): (r: seq<int>)
    requires off != 0 && s != []
    ensures |r| == |s|
  {
    if |s| % off == 0 then (if off > 0 then Rotated(s, off) else s)
    else Walk(s, off, |s|)[((|s| - 1) * off) % |s| := s[0]]
  }

  // ---------------------------------------------------------------- the chains

  /** Which chain a place is on. */
  function Chain(m: int, off: int): int
    requires off > 0
  {
    m % off
  }

  /** Where the element that ends up at m comes from. */
  function Source(m: int, off: int, n: int): int
    requires n > 0
  {
    (m + off) % n
  }

  /** When off divides n: the place off further on, or the start of the chain. */
  lemma {:induction false} ChainSource(n: int, off: int, m: int)
    requires 0 < off <= n && n % off == 0 && 0 <= m < n
    ensures Source(m, off, n) == if m + off < n then m + off else Chain(m, off)
  {
    if m + off >= n {
      var d := m + off - n;
      SameRemainder(d, 1, n);
      SmallRemainder(d, n);
      Quotient(n, off);
      SameRemainder(d, n / off - 1, off);
      Distributes(n / off, -1, off);
      SmallRemainder(d, off);
    } else {
      SmallRemainder(m + off, n);
    }
  }

  lemma {:induction false} ChainNext(m: int, off: int)
    requires off > 0
    ensures Chain(m + off, off) == Chain(m, off)
  {
    SameRemainder(m, 1, off);
  }

  lemma {:induction false} ChainStart(i: int, off: int)
    requires 0 <= i < off
    ensures Chain(i, off) == i
  {
    SmallRemainder(i, off);
  }

  /** Places of one chain are at least off apart. */
  lemma {:induction false} ChainSteps(m: int, j: int, off: int)
    requires off > 0 && Chain(m, off) == Chain(j, off)
    ensures m < j ==> m + off <= j
  {
    if m < j {
      Quotient(m, off);
      Quotient(j, off);
      if m / off >= j / off {
        Times(j / off, m / off, off);
      } else {
        Times(m / off + 1, j / off, off);
        Distributes(m / off, 1, off);
      }
    }
  }

  /** Chain i has been rotated up to, but not including, the place hole. */
  predicate ChainUpTo(s: seq<int>, t: seq<int>, off: int, i: int, hole: int) {
    && off > 0 && |t| == |s|
    && forall m {:trigger t[m]} :: 0 <= m < |s| ==>
      t[m] == if Chain(m, off) == i && m < hole && m + off < |s| then s[m + off] else s[m]
  }

  lemma {:induction false} ChainGrows(s: seq<int>, t: seq<int>, off: int, i: int, hole: int)
    requires ChainUpTo(s, t, off, i, hole) && 0 <= hole && Chain(hole, off) == i && hole + off < |s|
    ensures ChainUpTo(s, t[hole := t[hole + off]], off, i, hole + off)
  {
    var u := t[hole := t[hole + off]];
    forall m | 0 <= m < |s|
      ensures u[m] == if Chain(m, off) == i && m < hole + off && m + off < |s| then s[m + off] else s[m]
    {
      if Chain(m, off) == i { ChainSteps(hole, m, off); }
    }
  }

  /** The rotation of the chains below i. */
  predicate ChainsDone(s: seq<int>, t: seq<int>, off: int, i: int) {
    && off > 0 && |t| == |s|
    && forall m :: 0 <= m < |s| ==> Source(m, off, |s|) < |s| && 0 <= Source(m, off, |s|)
                                    && t[m] == if Chain(m, off) < i then s[Source(m, off, |s|)] else s[m]
  }

  lemma {:induction false} ChainCloses(s: seq<int>, t: seq<int>, u: seq<int>, off: int, i: int, hole: int)
    requires ChainsDone(s, t, off, i) && ChainUpTo(t, u, off, i, hole) && 0 <= i < off <= |s| && |s| % off == 0
    requires 0 <= hole < |s| && Chain(hole, off) == i && hole + off >= |s|
    ensures ChainsDone(s, u[hole := t[i]], off, i + 1)
  {
    hide Chain, Source;
    ChainStart(i, off);
    forall m | 0 <= m < |s|
      ensures u[hole := t[i]][m] == if Chain(m, off) < i + 1 then s[Source(m, off, |s|)] else s[m]
    {
      if Chain(m, off) == i {
        ChainSource(|s|, off, m);
        ChainSteps(m, hole, off);
        ChainSteps(hole, m, off);
        if m != hole { ChainNext(m, off); }
      } else {
        assert u[m] == t[m] && m != hole;
      }
    }
  }

  /** One chain: i, i + off, i + 2 * off, ... each takes the place before it. */
  method RotateChain(a: array<int>, off: nat, i: nat, ghost s: seq<int>)
    requires i < off <= a.Length && a.Length % off == 0 && ChainsDone(s, a[..], off, i)
    modifies a
    ensures ChainsDone(s, a[..], off, i + 1)
  {
    hide ChainUpTo, ChainsDone, Chain;
    var temp := a[i];
    var j := i + off;
    ghost var t := a[..];
    ChainStart(i, off);
    ChainBegins(t, off, i);
    SameLength(s, t, off, i);
    while j < a.Length
      invariant i + off <= j < a.Length + off && Chain(j - off, off) == i
      invariant ChainUpTo(t, a[..], off, i, j - off)
    {
      ghost var u := a[..];
      ChainGrows(t, u, off, i, j - off);
      ChainNext(j - off, off);
      a[j - off] := a[j];
      assert a[..] == u[j - off := u[j]];
      j := j + off;
    }
    ghost var u := a[..];
    ChainCloses(s, t, u, off, i, j - off);
    a[j - off] := temp;
    assert a[..] == u[j - off := t[i]];
  }

  lemma {:induction false} ChainBegins(t: seq<int>, off: int, i: int)
    requires 0 <= i < off
    ensures ChainUpTo(t, t, off, i, i)
  {
    forall m | 0 <= m < |t| && Chain(m, off) == i ensures m >= i {
      ChainStart(i, off);
      ChainSteps(m, i, off);
    }
  }

  lemma {:induction false} SameLength(s: seq<int>, t: seq<int>, off: int, i: int)
    requires ChainsDone(s, t, off, i)
    ensures |s| == |t|
  {
  }

  lemma {:induction false} NoChains(s: seq<int>, off: int)
    requires 0 < off <= |s|
    ensures ChainsDone(s, s, off, 0)
  {
  }

  lemma {:induction false} AllChains(s: seq<int>, t: seq<int>, off: int)
    requires 0 < off <= |s| && ChainsDone(s, t, off, off)
    ensures t == Rotated(s, off)
  {
  }

  // ---------------------------------------------------------------- the walk

  /** The walk, place by place. */
  method WalkAround(a: array<int>, offset: int)
    requires offset != 0 && a.Length > 0 && a.Length % offset != 0
    modifies a
    ensures a[..] == Result(old(a[..]), offset)
  {
    var size := a.Length;
    ghost var s := a[..];
    var temp, j := a[0], 0;
    for i := 0 to size
      invariant a[..] == Walk(s, offset, i) && j == i * offset
    {
      Distributes(i, 1, offset);
      a[j % size] := a[(j + offset) % size];
      j := j + offset;
    }
    Distributes(size, -1, offset);
    assert j - offset == (size - 1) * offset;
    a[(j - offset) % size] := temp;
  }

  /** rotate_left. */
  method RotateLeft(a: array<int>, offset: int) returns (r: Outcome)
    modifies a
    ensures r == if offset == 0 then ZeroDivision else if a.Length == 0 && offset > 0 then IndexError else Done
    ensures r != Done || a.Length == 0 ==> a[..] == old(a[..])
    ensures r == Done && a.Length > 0 ==> offset != 0 && a[..] == Result(old(a[..]), offset)
    ensures r == Done && a.Length > 0 && Works(a.Length, offset) ==> a[..] == Rotated(old(a[..]), offset)
  {
    var size := a.Length;
    if offset != 0 && size > 0 && Works(size, offset) { WorksIsRight(a[..], offset); }
    if offset == 0 {
      return ZeroDivision;
    }
    if size % offset != 0 {
      WalkAround(a, offset);
      return Done;
    }
    if offset > 0 && size == 0 {
      return IndexError;
    }
    var i := 0;
    ghost var s := a[..];
    if offset > 0 {
      Quotient(size, offset);
      if size / offset < 1 { Times(size / offset, 0, offset); }
      NoChains(s, offset);
      hide ChainsDone;
      while i < offset
        invariant 0 <= i <= offset && ChainsDone(s, a[..], offset, i)
      {
        RotateChain(a, offset, i, s);
        i := i + 1;
      }
      AllChains(s, a[..], offset);
    }
    return Done;
  }

  // ---------------------------------------------------------------- when it is right

  /** The walk of a coprime offset: the places met so far have taken their sources' elements. */
  lemma {:induction false} WalkSoFar(s: seq<int>, off: int, i: nat)
    requires s != [] && i <= |s| && Gcd(Abs(off), |s|) == 1
    ensures forall k: nat :: k < i && k < |s| - 1 ==> Walk(s, off, i)[(k * off) % |s|] == s[((k + 1) * off) % |s|]
    ensures forall k: nat :: i <= k < |s| ==> Walk(s, off, i)[(k * off) % |s|] == s[(k * off) % |s|]
  {
    if i > 0 {
      var n, t, u := |s|, Walk(s, off, i - 1), Walk(s, off, i);
      WalkSoFar(s, off, i - 1);
      forall k: nat | k < i && k < n - 1 ensures u[(k * off) % n] == s[((k + 1) * off) % n] {
        if k < i - 1 {
          WalkInjective(n, off, k, i - 1);
        }
      }
      forall k: nat | i <= k < n ensures u[(k * off) % n] == s[(k * off) % n] {
        WalkInjective(n, off, i - 1, k);
      }
    }
  }

  /** A coprime walk gets everywhere. */
  lemma {:induction false} Reaches(n: nat, off: int, m: nat) returns (k: nat)
    requires m < n && Gcd(Abs(off), n) == 1
    ensures k < n && (k * off) % n == m
  {
    var u, v := Bezout(Abs(off), n);
    var w := if off < 0 then 0 - u else u;
    k := (m * w) % n;
    var q := m * w / n;
    Quotient(m * w, n);
    Backwards(n, off, m, k, q, w, v);
    SameRemainder(m, -(m * v) - q * off, n);
    SmallRemainder(m, n);
  }

  lemma {:induction false} Backwards(n: int, off: int, m: int, k: int, q: int, w: int, v: int)
    requires w * off + v * n == 1 && m * w == q * n + k
    ensures k * off == m + (-(m * v) - q * off) * n
  {
    assert m * w * off == m * (w * off) == m * (1 - v * n);
    assert k * off == m * w * off - q * n * off;
  }

  lemma {:induction false} OneFurther(n: nat, off: int, k: int, m: int)
    requires n > 0 && (k * off) % n == m
    ensures ((k + 1) * off) % n == (m + off) % n
  {
    Quotient(k * off, n);
    Distributes(k, 1, off);
    SameRemainder(m + off, k * off / n, n);
  }

  lemma {:induction false} CoprimeIsRight(s: seq<int>, off: int)
    requires s != [] && off != 0 && |s| % off != 0 && Gcd(Abs(off), |s|) == 1
    ensures Result(s, off) == Rotated(s, off)
  {
    var n := |s|;
    WalkSoFar(s, off, n);
    hide Walk, Gcd;
    forall m | 0 <= m < n ensures Result(s, off)[m] == Rotated(s, off)[m] {
      var k := Reaches(n, off, m);
      OneFurther(n, off, k, m);
      if k < n - 1 {
        WalkInjective(n, off, k, n - 1);
      } else {
        Multiple(off, n);
        assert n * off == off * n;
      }
    }
  }

  lemma {:induction false} WholeTurns(s: seq<int>, off: int, i: nat)
    requires s != [] && off % |s| == 0
    ensures Walk(s, off, i) == s && (i * off) % |s| == 0
  {
    DividesTimes(|s|, off, i);
    if i > 0 { WholeTurns(s, off, i - 1); }
  }

  lemma {:induction false} WholeTurnsAreRight(s: seq<int>, off: int)
    requires s != [] && off % |s| == 0
    ensures Rotated(s, off) == s && (off != 0 && |s| % off != 0 ==> Result(s, off) == s)
  {
    forall m | 0 <= m < |s| ensures Rotated(s, off)[m] == s[m] {
      BackAgain(m, off, |s|);
    }
    if off != 0 && |s| % off != 0 {
      WholeTurns(s, off, |s|);
      WholeTurns(s, off, |s| - 1);
      hide Walk;
      assert s[0 := s[0]] == s;
    }
  }

  lemma {:induction false} BackAgain(m: int, off: int, n: int)
    requires 0 <= m < n && off % n == 0
    ensures (m + off) % n == m
  {
    Quotient(off, n);
    SameRemainder(m, off / n, n);
    SmallRemainder(m, n);
  }

  /** A walk of an offset with a common divisor never meets place 1. */
  lemma {:induction false} MissesOne(s: seq<int>, off: int, i: nat)
    requires s != [] && Gcd(Abs(off), |s|) > 1
    ensures |s| > 1 && (i * off) % |s| != 1 && Walk(s, off, i)[1] == s[1]
  {
    var g, n := Gcd(Abs(off), |s|), |s|;
    GcdDivides(Abs(off), n);
    if n == 1 { SmallRemainder(1, g); }
    NotOne(g, n, off, i);
    if i > 0 {
      MissesOne(s, off, i - 1);
    }
  }

  lemma {:induction false} NotOne(g: nat, n: nat, off: int, i: nat)
    requires g > 1 && n > 0 && Divides(g, Abs(off)) && Divides(g, n)
    ensures (i * off) % n != 1
  {
    if off < 0 { DividesTimes(g, Abs(off), -1); }
    DividesTimes(g, off, i);
    DividesRemainder(g, i * off, n);
    SmallRemainder(1, g);
  }

  function Counting(n: nat): (r: seq<int>)
    ensures |r| == n
  {
    seq(n, i => i)
  }

  /** An offset of which no whole number of turns is made moves every place. */
  lemma {:induction false} Moves(n: nat, off: int)
    requires n > 1 && off % n != 0
    ensures Rotated(Counting(n), off)[1] != 1
  {
    if (1 + off) % n == 1 {
      SmallRemainder(1, n);
      EqualRemainders(n, 1, 1 + off);
    }
  }

  /** When rotate_left rotates every list of n elements. */
  predicate Works(n: nat, off: int)
    requires n > 0 && off != 0
  {
    if n % off == 0 then off > 0 || off == 0 - n
    else Gcd(Abs(off), n) == 1 || off % n == 0
  }

  predicate RightFor(s: seq<int>, off: int)
    requires s != [] && off != 0
  {
    Result(s, off) == Rotated(s, off)
  }

  lemma {:induction false} WorksIsRight(s: seq<int>, off: int)
    requires s != [] && off != 0 && Works(|s|, off)
    ensures RightFor(s, off)
  {
    if |s| % off == 0 {
      if off == 0 - |s| {
        Multiple(-1, |s|);
        WholeTurnsAreRight(s, off);
      }
    } else if off % |s| == 0 {
      WholeTurnsAreRight(s, off);
    } else {
      CoprimeIsRight(s, off);
    }
  }

  lemma {:induction false} NegativeDivisor(n: nat, off: int)
    requires n > 0 && off < 0 && n % off == 0 && off % n == 0
    ensures off == 0 - n
  {
    var q := off / n;
    Quotient(off, n);
    assert n % (0 - off) == 0;
    Quotient(n, 0 - off);
    if q <= -2 {
      assert q * n <= -2 * n;
      SmallRemainder(n, 0 - off);
    }
    if q >= 0 { Times(0, q, n); }
  }

  lemma {:induction false} OtherwiseWrong(n: nat, off: int)
    requires n > 0 && off != 0 && !Works(n, off)
    ensures !RightFor(Counting(n), off)
  {
    var s := Counting(n);
    if n % off == 0 {
      if off % n == 0 { NegativeDivisor(n, off); }
      if n == 1 { Quotient(off, 1); }
      Moves(n, off);
    } else {
      MissesOne(s, off, n);
      MissesOne(s, off, n - 1);
      Moves(n, off);
    }
  }

  /** rotate_left rotates every list of a length by an offset exactly when the offset is a positive
      divisor of the length, is coprime to it, or makes whole turns. */
  lemma {:induction false} RightExactlyWhen(n: nat, off: int)
    requires n > 0 && off != 0
    ensures (forall s: seq<int> :: |s| == n ==> RightFor(s, off)) <==> Works(n, off)
  {
    if Works(n, off) {
      forall s: seq<int> | |s| == n ensures RightFor(s, off) {
        WorksIsRight(s, off);
      }
    } else {
      OtherwiseWrong(n, off);
    }
  }
}
