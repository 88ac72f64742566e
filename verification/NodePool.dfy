/** The memory of a node allocator: blocks carved from chunks, each of them live or on the free list
    of its size class, one buffer that is still uncarved, and what the system will yet provide. */
module NodePools {
  import opened Basics
  import opened Sums

  const ALIGN: nat := 16
  const MAX_BYTES: nat := 256
  const CLASSES: nat := 16

  /** The system's answer to one request for a chunk: memory at `base` if it asks for at most `size`
      bytes, failure otherwise. */
  datatype Grant = Grant(base: int, size: nat)

  datatype Pool = Pool(
    lists: seq<seq<int>>,     // free blocks, by size class
    blocks: map<int, int>,    // size of every block, by address
    live: set<int>,           // blocks the program holds
    start: int, end: int,     // the buffer
    flight: int, bytes: int,  // memory taken from the buffer and not yet made into blocks
    grants: seq<Grant>,
    obtained: int)            // bytes the system has provided

  function RoundUp(n: nat): (r: nat)
    ensures n <= r < n + ALIGN && r % ALIGN == 0
  {
    (n + ALIGN - 1) / ALIGN * ALIGN
  }

  predicate IsSize(n: int) {
    ALIGN <= n <= MAX_BYTES && n % ALIGN == 0
  }

  function ClassOf(n: nat): (i: nat)
    requires IsSize(n)
    ensures i < CLASSES && n == ALIGN * (i + 1)
  {
    (n - 1) / ALIGN
  }

  /** A list of free blocks of one size. */
  predicate ListOk(list: seq<int>, size: int, blocks: map<int, int>, live: set<int>) {
    && NoRepeats(list)
    && forall k :: 0 <= k < |list| ==> list[k] in blocks && blocks[list[k]] == size && list[k] !in live
  }

  predicate ListsOk(lists: seq<seq<int>>, blocks: map<int, int>, live: set<int>) {
    && |lists| == CLASSES
    && forall i :: 0 <= i < CLASSES ==> ListOk(lists[i], ALIGN * (i + 1), blocks, live)
  }

  /** Every block is where it should be: held by the program or on its list. */
  predicate NoneLost(lists: seq<seq<int>>, blocks: map<int, int>, live: set<int>)
    requires |lists| == CLASSES
  {
    && live <= blocks.Keys
    && forall a :: a in blocks ==> IsSize(blocks[a]) && (a in live || a in lists[ClassOf(blocks[a])])
  }

  predicate Region(a: int, n: int) {
    n >= 0 && n % ALIGN == 0 && (n > 0 ==> a > 0 && a % ALIGN == 0)
  }

  predicate BlocksApart(blocks: map<int, int>, a: int, n: int) {
    forall b :: b in blocks ==> Apart(b, blocks[b], a, n)
  }

  predicate GrantsApart(grants: seq<Grant>, a: int, n: int) {
    forall i :: 0 <= i < |grants| ==> Apart(grants[i].base, grants[i].size, a, n)
  }

  predicate GrantsOk(grants: seq<Grant>) {
    && (forall i :: 0 <= i < |grants| ==> grants[i].base > 0 && grants[i].base % ALIGN == 0)
    && (forall i, j :: 0 <= i < j < |grants| ==> Apart(grants[i].base, grants[i].size, grants[j].base, grants[j].size))
  }

  /** A region that overlaps no block and nothing the system will provide. */
  predicate Own(p: Pool, a: int, n: int) {
    Region(a, n) && (n > 0 ==> BlocksApart(p.blocks, a, n) && GrantsApart(p.grants, a, n))
  }

  predicate Geometry(p: Pool) {
    && (forall a :: a in p.blocks ==> Region(a, p.blocks[a]) && GrantsApart(p.grants, a, p.blocks[a]))
    && (forall a, b :: a in p.blocks && b in p.blocks && a != b ==> Apart(a, p.blocks[a], b, p.blocks[b]))
    && GrantsOk(p.grants)
    && Own(p, p.start, p.end - p.start) && Own(p, p.flight, p.bytes)
    && (p.bytes > 0 && p.end > p.start ==> Apart(p.start, p.end - p.start, p.flight, p.bytes))
  }

  ghost predicate Conserved(p: Pool) {
    p.obtained == Sum(p.blocks) + (p.end - p.start) + p.bytes
  }

  /** All blocks, the buffer and the memory in flight are disjoint; each block is live or on exactly
      the list of its size; together they are all that was ever obtained. */
  ghost predicate Sound(p: Pool) {
    && ListsOk(p.lists, p.blocks, p.live) && NoneLost(p.lists, p.blocks, p.live)
    && Geometry(p) && Conserved(p)
  }

  // ---------------------------------------------------------------- blocks on and off the lists

  function Popped(p: Pool, i: nat): Pool
    requires |p.lists| == CLASSES && i < CLASSES && p.lists[i] != []
  {
    p.(lists := p.lists[i := p.lists[i][1..]], live := p.live + {p.lists[i][0]})
  }

  lemma {:induction false} PopKeeps(p: Pool, i: nat)
    requires Sound(p) && i < CLASSES && p.lists[i] != []
    ensures Sound(Popped(p, i)) && p.lists[i][0] !in p.live
    ensures p.lists[i][0] in p.blocks && p.blocks[p.lists[i][0]] == ALIGN * (i + 1)
  {
    hide Geometry, Conserved;
    var q, a := Popped(p, i), p.lists[i][0];
    forall j | 0 <= j < CLASSES ensures ListOk(q.lists[j], ALIGN * (j + 1), q.blocks, q.live) {
      assert ListOk(p.lists[j], ALIGN * (j + 1), p.blocks, p.live);
      assert ListOk(p.lists[i], ALIGN * (i + 1), p.blocks, p.live);
    }
    forall b | b in q.blocks ensures IsSize(q.blocks[b]) && (b in q.live || b in q.lists[ClassOf(q.blocks[b])]) {
      if b !in q.live {
        var c := ClassOf(p.blocks[b]);
        assert b in p.lists[c];
        if c == i {
          var k :| 0 <= k < |p.lists[i]| && p.lists[i][k] == b;
          assert q.lists[i][k - 1] == b;
        }
      }
    }
    SameGeometry(p, q);
  }

  lemma {:induction false} SameGeometry(p: Pool, q: Pool)
    requires Geometry(p) && Conserved(p) && q.blocks == p.blocks && q.start == p.start && q.end == p.end
    requires q.flight == p.flight && q.bytes == p.bytes && q.grants == p.grants && q.obtained == p.obtained
    ensures Geometry(q) && Conserved(q)
  {
  }

  function Pushed(p: Pool, i: nat, a: int): Pool
    requires |p.lists| == CLASSES && i < CLASSES
  {
    p.(lists := p.lists[i := [a] + p.lists[i]], live := p.live - {a})
  }

  lemma {:induction false} PushKeeps(p: Pool, a: int)
    requires Sound(p) && a in p.live
    ensures a in p.blocks && IsSize(p.blocks[a]) && Sound(Pushed(p, ClassOf(p.blocks[a]), a))
  {
    hide Geometry, Conserved;
    var i := ClassOf(p.blocks[a]);
    var q := Pushed(p, i, a);
    forall j | 0 <= j < CLASSES ensures ListOk(q.lists[j], ALIGN * (j + 1), q.blocks, q.live) {
      assert ListOk(p.lists[j], ALIGN * (j + 1), p.blocks, p.live);
    }
    forall b | b in q.blocks ensures IsSize(q.blocks[b]) && (b in q.live || b in q.lists[ClassOf(q.blocks[b])]) {
      if b != a && b !in q.live {
        assert b in p.lists[ClassOf(p.blocks[b])];
      }
    }
    SameGeometry(p, q);
  }

  // ---------------------------------------------------------------- new blocks

  /** Where a new block goes: to the program, or to either end of its list. */
  datatype Where = Live | Front | Back

  function Placed(p: Pool, a: int, n: nat, where: Where): Pool
    requires |p.lists| == CLASSES && IsSize(n)
  {
    var list := p.lists[ClassOf(n)];
    p.(blocks := p.blocks[a := n],
       live := if where.Live? then p.live + {a} else p.live,
       lists := match where
                case Live => p.lists
                case Front => p.lists[ClassOf(n) := [a] + list]
                case Back => p.lists[ClassOf(n) := list + [a]])
  }

  lemma {:induction false} NewIsNowhere(p: Pool, a: int, n: nat)
    requires Sound(p) && n > 0 && Own(p, a, n)
    ensures a !in p.blocks && a !in p.live
    ensures forall i, k {:trigger p.lists[i][k]} :: 0 <= i < CLASSES && 0 <= k < |p.lists[i]| ==> p.lists[i][k] != a
  {
    hide Conserved;
    assert a in p.blocks ==> !Apart(a, p.blocks[a], a, n);
    forall i, k {:trigger p.lists[i][k]} | 0 <= i < CLASSES && 0 <= k < |p.lists[i]| ensures p.lists[i][k] != a {
      assert ListOk(p.lists[i], ALIGN * (i + 1), p.blocks, p.live);
    }
  }

  lemma {:induction false} PlacedLists(p: Pool, a: int, n: nat, where: Where)
    requires ListsOk(p.lists, p.blocks, p.live) && NoneLost(p.lists, p.blocks, p.live) && IsSize(n)
    requires a !in p.blocks && a !in p.live
    requires forall i, k {:trigger p.lists[i][k]} :: 0 <= i < CLASSES && 0 <= k < |p.lists[i]| ==> p.lists[i][k] != a
    ensures var q := Placed(p, a, n, where);
      ListsOk(q.lists, q.blocks, q.live) && NoneLost(q.lists, q.blocks, q.live)
  {
    var q, c := Placed(p, a, n, where), ClassOf(n);
    forall j | 0 <= j < CLASSES ensures ListOk(q.lists[j], ALIGN * (j + 1), q.blocks, q.live) {
      assert ListOk(p.lists[j], ALIGN * (j + 1), p.blocks, p.live);
    }
    forall b | b in q.blocks ensures IsSize(q.blocks[b]) && (b in q.live || b in q.lists[ClassOf(q.blocks[b])]) {
      if b == a {
        assert where.Front? ==> q.lists[c][0] == a;
        assert where.Back? ==> q.lists[c][|q.lists[c]| - 1] == a;
      } else if b !in p.live {
        assert b in p.lists[ClassOf(p.blocks[b])];
      }
    }
  }

  lemma {:induction false} SumPlus(blocks: map<int, int>, a: int, n: int)
    requires a !in blocks
    ensures Sum(blocks[a := n]) == Sum(blocks) + n
  {
    SumUpdate(blocks, a, n);
    assert blocks - {a} == blocks;
  }

  /** The first n bytes in flight become a block. */
  function Carved(p: Pool, n: nat, where: Where): Pool
    requires |p.lists| == CLASSES && IsSize(n)
  {
    Placed(p, p.flight, n, where).(flight := p.flight + n, bytes := p.bytes - n)
  }

  /** A block made from memory that is p's own, given where the buffer and the rest in flight are then. */
  lemma {:induction false} PlacedGeometry(p: Pool, q: Pool, a: int, n: nat)
    requires Geometry(p) && Own(p, a, n) && n > 0 && a !in p.blocks
    requires q.blocks == p.blocks[a := n] && q.grants == p.grants
    requires Own(p, q.start, q.end - q.start) && (q.end > q.start ==> Apart(a, n, q.start, q.end - q.start))
    requires Own(p, q.flight, q.bytes) && (q.bytes > 0 ==> Apart(a, n, q.flight, q.bytes))
    requires q.bytes > 0 && q.end > q.start ==> Apart(q.start, q.end - q.start, q.flight, q.bytes)
    ensures Geometry(q)
  {
  }

  /** Part of a region of p's own. */
  lemma {:induction false} OwnPart(p: Pool, a: int, n: int, b: int, m: int)
    requires Own(p, a, n) && a <= b && m >= 0 && b + m <= a + n && (b - a) % ALIGN == 0 && m % ALIGN == 0
    ensures Own(p, b, m)
  {
    if m > 0 {
      forall c | c in p.blocks ensures Apart(c, p.blocks[c], b, m) {
        assert Apart(c, p.blocks[c], a, n);
      }
      forall i | 0 <= i < |p.grants| ensures Apart(p.grants[i].base, p.grants[i].size, b, m) {
        assert Apart(p.grants[i].base, p.grants[i].size, a, n);
      }
    }
  }

  lemma {:induction false} CarveKeeps(p: Pool, n: nat, where: Where)
    requires Sound(p) && IsSize(n) && p.bytes >= n
    ensures Sound(Carved(p, n, where)) && p.flight !in p.blocks && p.flight > 0
  {
    assert |p.lists| == CLASSES;
    hide ListsOk, NoneLost, Sum, Geometry, Own;
    var q := Carved(p, n, where);
    RegionsOwn(p);
    RestAligned(p.bytes, n);
    OwnPart(p, p.flight, p.bytes, p.flight, n);
    OwnPart(p, p.flight, p.bytes, q.flight, q.bytes);
    NewIsNowhere(p, p.flight, n);
    PlacedLists(p, p.flight, n, where);
    SumPlus(p.blocks, p.flight, n);
    PlacedGeometry(p, q, p.flight, n);
    assert p.flight > 0 by { OwnStart(p, p.flight, n); }
  }

  lemma {:induction false} RegionsOwn(p: Pool)
    requires Geometry(p)
    ensures Own(p, p.start, p.end - p.start) && Own(p, p.flight, p.bytes)
    ensures (p.end - p.start) % ALIGN == 0 && p.end >= p.start && p.bytes % ALIGN == 0
    ensures p.bytes > 0 && p.end > p.start ==> Apart(p.start, p.end - p.start, p.flight, p.bytes)
  {
  }

  lemma {:induction false} OwnStart(p: Pool, a: int, n: int)
    requires Own(p, a, n) && n > 0
    ensures a > 0
  {
  }

  /** The piece left in the buffer goes on the list of its size. */
  function LeftOver(p: Pool): Pool
    requires |p.lists| == CLASSES && IsSize(p.end - p.start)
  {
    Placed(p, p.start, p.end - p.start, Front).(start := 0, end := 0)
  }

  lemma {:induction false} LeftOverKeeps(p: Pool)
    requires Sound(p) && IsSize(p.end - p.start) && p.bytes == 0
    ensures Sound(LeftOver(p)) && p.start !in p.blocks && p.start > 0
  {
    assert |p.lists| == CLASSES && p.end > p.start;
    hide ListsOk, NoneLost, Sum, Geometry, Own, ClassOf, IsSize, Placed;
    var left, q := p.end - p.start, Placed(p, p.start, p.end - p.start, Front);
    RegionsOwn(p);
    NewIsNowhere(p, p.start, left);
    PlacedLists(p, p.start, left, Front);
    SumPlus(p.blocks, p.start, left);
    PlacedElse(p, p.start, left, Front);
    NothingOwn(p, 0);
    PlacedGeometry(p, q.(start := 0, end := 0), p.start, left);
    OwnStart(p, p.start, left);
  }

  lemma {:induction false} PlacedElse(p: Pool, a: int, n: nat, where: Where)
    requires |p.lists| == CLASSES && IsSize(n)
    ensures var q := Placed(p, a, n, where);
      && q.blocks == p.blocks[a := n] && q.grants == p.grants && q.flight == p.flight && q.bytes == p.bytes
      && q.obtained == p.obtained
  {
  }

  lemma {:induction false} NothingOwn(p: Pool, a: int)
    ensures Own(p, a, 0)
  {
  }

  // ---------------------------------------------------------------- the buffer

  function Bumped(p: Pool, total: nat): Pool
  {
    p.(start := p.start + total, flight := p.start, bytes := total)
  }

  lemma {:induction false} BumpKeeps(p: Pool, total: nat)
    requires Sound(p) && p.bytes == 0 && 0 < total <= p.end - p.start && total % ALIGN == 0
    ensures Sound(Bumped(p, total))
  {
    hide ListsOk, NoneLost, Sum;
    RestAligned(p.end - p.start, total);
  }

  lemma {:induction false} RestAligned(n: nat, m: nat)
    requires n % ALIGN == 0 && m % ALIGN == 0 && m <= n
    ensures (n - m) % ALIGN == 0
  {
  }

  function Supplied(p: Pool, n: nat): Pool
    requires p.grants != []
  {
    var g := p.grants[0];
    p.(start := g.base, end := g.base + n, grants := p.grants[1..], obtained := p.obtained + n)
  }

  lemma {:induction false} SupplyKeeps(p: Pool, n: nat)
    requires Sound(p) && p.start == p.end && p.bytes == 0 && p.grants != []
    requires 0 < n <= p.grants[0].size && n % ALIGN == 0
    ensures Sound(Supplied(p, n))
  {
    hide ListsOk, NoneLost, Sum;
    var q, g := Supplied(p, n), p.grants[0];
    assert forall i :: 0 <= i < |q.grants| ==> q.grants[i] == p.grants[i + 1];
    assert BlocksApart(q.blocks, g.base, n);
    assert GrantsApart(q.grants, g.base, n);
  }

  lemma {:induction false} RefuseKeeps(p: Pool)
    requires Sound(p) && p.grants != []
    ensures Sound(p.(grants := p.grants[1..]))
  {
    hide ListsOk, NoneLost, Sum;
    var q := p.(grants := p.grants[1..]);
    assert forall i :: 0 <= i < |q.grants| ==> q.grants[i] == p.grants[i + 1];
  }

  /** A free block becomes the buffer. */
  function Recycled(p: Pool, i: nat): Pool
    requires |p.lists| == CLASSES && i < CLASSES && p.lists[i] != []
  {
    var a := p.lists[i][0];
    p.(lists := p.lists[i := p.lists[i][1..]], blocks := p.blocks - {a}, start := a, end := a + ALIGN * (i + 1))
  }

  lemma {:induction false} RecycleKeeps(p: Pool, i: nat)
    requires Sound(p) && i < CLASSES && p.lists[i] != [] && p.start == p.end && p.bytes == 0
    ensures Sound(Recycled(p, i))
  {
    assert |p.lists| == CLASSES;
    hide ListsOk, NoneLost, Sum, Geometry;
    PopKeeps(p, i);
    SumWithout(p.blocks, p.lists[i][0]);
    RecycledLists(p, i);
    RecycledGeometry(p, p.lists[i][0], Recycled(p, i));
  }

  lemma {:induction false} RecycledGeometry(p: Pool, a: int, q: Pool)
    requires Geometry(p) && a in p.blocks && q.blocks == p.blocks - {a} && q.grants == p.grants
    requires q.start == a && q.end == a + p.blocks[a] && q.bytes == p.bytes == 0 && q.flight == p.flight
    ensures Geometry(q)
  {
    forall b | b in q.blocks ensures Apart(b, q.blocks[b], a, p.blocks[a]) {
      assert b in p.blocks && b != a;
    }
  }

  lemma {:induction false} RecycledLists(p: Pool, i: nat)
    requires Sound(p) && i < CLASSES && p.lists[i] != []
    ensures var q := Recycled(p, i);
      ListsOk(q.lists, q.blocks, q.live) && NoneLost(q.lists, q.blocks, q.live)
  {
    hide Geometry, Conserved;
    var a, q := p.lists[i][0], Recycled(p, i);
    assert ListOk(p.lists[i], ALIGN * (i + 1), p.blocks, p.live);
    forall j | 0 <= j < CLASSES ensures ListOk(q.lists[j], ALIGN * (j + 1), q.blocks, q.live) {
      assert ListOk(p.lists[j], ALIGN * (j + 1), p.blocks, p.live);
    }
    forall b | b in q.blocks ensures IsSize(q.blocks[b]) && (b in q.live || b in q.lists[ClassOf(q.blocks[b])]) {
      if b !in q.live {
        var c := ClassOf(p.blocks[b]);
        assert b in p.lists[c];
        if c == i {
          var k :| 0 <= k < |p.lists[i]| && p.lists[i][k] == b;
          assert q.lists[i][k - 1] == b;
        }
      }
    }
  }

  // ---------------------------------------------------------------- what a sound pool means

  /** Two blocks the program holds never overlap, none is on a list or in the buffer, and nothing is
      lost: the bytes obtained are the live bytes, the listed bytes and the buffer. */
  lemma {:induction false} LiveBlocksApart(p: Pool, a: int, b: int)
    requires Sound(p) && a in p.live && b in p.live && a != b
    ensures Apart(a, p.blocks[a], b, p.blocks[b])
    ensures p.end > p.start ==> Apart(a, p.blocks[a], p.start, p.end - p.start)
    ensures forall i, k {:trigger p.lists[i][k]} :: 0 <= i < CLASSES && 0 <= k < |p.lists[i]| ==>
      p.lists[i][k] != a && p.blocks[p.lists[i][k]] == ALIGN * (i + 1)
  {
    hide Conserved;
    forall i, k {:trigger p.lists[i][k]} | 0 <= i < CLASSES && 0 <= k < |p.lists[i]|
      ensures p.lists[i][k] != a && p.blocks[p.lists[i][k]] == ALIGN * (i + 1)
    {
      assert ListOk(p.lists[i], ALIGN * (i + 1), p.blocks, p.live);
    }
  }

  function Held(p: Pool): map<int, int>
  {
    map a | a in p.blocks && a in p.live :: p.blocks[a]
  }

  function Idle(p: Pool): map<int, int>
  {
    map a | a in p.blocks && a !in p.live :: p.blocks[a]
  }

  lemma {:induction false} BytesConserved(p: Pool)
    requires Sound(p) && p.bytes == 0
    ensures p.obtained == Sum(Held(p)) + Sum(Idle(p)) + (p.end - p.start)
  {
    assert p.blocks == Held(p) + Idle(p);
    SumDisjoint(Held(p), Idle(p));
  }

  // ---------------------------------------------------------------- what an allocation takes

  /** The next m blocks in flight go on the back of their list. */
  function CarvedAll(p: Pool, n: nat, m: nat): (q: Pool)
    requires |p.lists| == CLASSES && IsSize(n)
    ensures |q.lists| == CLASSES
  {
    if m == 0 then p else Carved(CarvedAll(p, n, m - 1), n, Back)
  }

  /** m addresses n bytes apart. */
  function Row(a: int, n: nat, m: nat): (r: seq<int>)
    ensures |r| == m
  {
    seq(m, j => a + j * n)
  }

  lemma {:induction false} CarvedAllIs(p: Pool, n: nat, m: nat)
    requires |p.lists| == CLASSES && IsSize(n)
    ensures var q, c := CarvedAll(p, n, m), ClassOf(n);
      && q.flight == p.flight + m * n && q.bytes == p.bytes - m * n
      && q == p.(flight := q.flight, bytes := q.bytes, lists := q.lists, blocks := q.blocks)
      && q.lists == p.lists[c := p.lists[c] + Row(p.flight, n, m)]
      && (forall a :: a in q.blocks <==> a in p.blocks || a in Row(p.flight, n, m))
      && (forall a :: a in q.blocks ==> q.blocks[a] == if a in Row(p.flight, n, m) then n else p.blocks[a])
  {
    var c := ClassOf(n);
    if m == 0 {
      assert p.lists[c] + Row(p.flight, n, 0) == p.lists[c];
      assert p.lists[c := p.lists[c]] == p.lists;
    } else {
      CarvedAllIs(p, n, m - 1);
      var q := CarvedAll(p, n, m - 1);
      assert Row(p.flight, n, m) == Row(p.flight, n, m - 1) + [q.flight];
      assert p.lists[c] + Row(p.flight, n, m - 1) + [q.flight] == p.lists[c] + Row(p.flight, n, m);
      assert (m - 1) * n + n == m * n;
    }
  }

  /** How many blocks a refill gets: twenty, or as many as the buffer has room for. */
  function Portion(left: nat, n: nat): nat
    requires n > 0
  {
    if 20 * n <= left then 20 else left / n
  }

  /** A list found empty was refilled from a buffer with room: the first block is the caller's, the
      ones behind it are the list, and the buffer begins after them; nothing else changed. */
  ghost predicate TakenOffBuffer(p: Pool, q: Pool, n: nat, r: int)
    requires |p.lists| == CLASSES && IsSize(n) && p.end - p.start >= n
  {
    var k, c := Portion(p.end - p.start, n), ClassOf(n);
    && r == p.start && k >= 1 && q.start == p.start + k * n
    && q.live == p.live + {r} && q.lists == p.lists[c := Row(p.start + n, n, k - 1)]
    && (forall a :: a in q.blocks <==> a in p.blocks || a == r || a in q.lists[c])
    && (forall a :: a in q.blocks ==> q.blocks[a] == if a == r || a in q.lists[c] then n else p.blocks[a])
    && q.end == p.end && q.grants == p.grants && q.obtained == p.obtained && q.bytes == 0
  }

  lemma {:induction false} PortionFits(left: nat, n: nat)
    requires 0 < n <= left
    ensures 1 <= Portion(left, n) <= 20 && Portion(left, n) * n <= left
  {
    if left < 20 * n {
      assert left / n <= 20;
    }
  }

  lemma {:induction false} FirstCut(p: Pool, n: nat, k: nat)
    requires |p.lists| == CLASSES && IsSize(n)
    ensures var q := Carved(Bumped(p, k * n), n, Live);
      && q == p.(start := p.start + k * n, flight := p.start + n, bytes := k * n - n,
                 blocks := p.blocks[p.start := n], live := p.live + {p.start})
      && q.lists == p.lists
  {
  }

  lemma {:induction false} CutIsTaken(p: Pool, n: nat)
    requires |p.lists| == CLASSES && IsSize(n) && p.end - p.start >= n && p.lists[ClassOf(n)] == []
    ensures var k := Portion(p.end - p.start, n);
      k >= 1 && TakenOffBuffer(p, CarvedAll(Carved(Bumped(p, k * n), n, Live), n, k - 1), n, p.start)
  {
    var left := p.end - p.start;
    PortionFits(left, n);
    hide Portion, CarvedAll, Row, Carved, Bumped, IsSize, ClassOf;
    CutsTaken(p, n, Portion(left, n));
  }

  lemma {:induction false} CutsTaken(p: Pool, n: nat, k: nat)
    requires |p.lists| == CLASSES && IsSize(n) && p.end - p.start >= n && p.lists[ClassOf(n)] == []
    requires k == Portion(p.end - p.start, n) && k >= 1
    ensures TakenOffBuffer(p, CarvedAll(Carved(Bumped(p, k * n), n, Live), n, k - 1), n, p.start)
  {
    hide Portion, CarvedAll, Row, Carved;
    FirstCut(p, n, k);
    var q := Carved(Bumped(p, k * n), n, Live);
    CarvedAllIs(q, n, k - 1);
    assert k * n - n == (k - 1) * n;
    RestTaken(p, q, CarvedAll(q, n, k - 1), n, k, ClassOf(n));
  }

  lemma {:induction false} RestTaken(p: Pool, q: Pool, r: Pool, n: nat, k: nat, c: nat)
    requires |p.lists| == CLASSES && c < CLASSES && p.lists[c] == [] && k >= 1
    requires q == p.(start := q.start, flight := p.start + n, bytes := q.bytes,
                     blocks := p.blocks[p.start := n], live := p.live + {p.start})
    requires q.bytes == (k - 1) * n
    requires r == q.(flight := r.flight, bytes := q.bytes - (k - 1) * n, lists := r.lists, blocks := r.blocks)
    requires r.lists == q.lists[c := q.lists[c] + Row(q.flight, n, k - 1)]
    requires forall a :: a in r.blocks <==> a in q.blocks || a in Row(q.flight, n, k - 1)
    requires forall a :: a in r.blocks ==> r.blocks[a] == if a in Row(q.flight, n, k - 1) then n else q.blocks[a]
    ensures r.lists == p.lists[c := Row(p.start + n, n, k - 1)] && r.bytes == 0
    ensures r.live == p.live + {p.start} && r.start == q.start
    ensures r.end == p.end && r.grants == p.grants && r.obtained == p.obtained
    ensures forall a :: a in r.blocks <==> a in p.blocks || a == p.start || a in r.lists[c]
    ensures forall a :: a in r.blocks ==> r.blocks[a] == if a == p.start || a in r.lists[c] then n else p.blocks[a]
  {
    hide Row;
    assert [] + Row(p.start + n, n, k - 1) == Row(p.start + n, n, k - 1);
  }

  /** The pool after the system gave what was asked for: the rest of the buffer, if there is any, is
      first on the list of its size, and the memory is the buffer. */
  function Stocked(p: Pool, bytes: nat): Pool
    requires |p.lists| == CLASSES && p.grants != [] && (p.end != p.start ==> IsSize(p.end - p.start))
  {
    var left := p.end - p.start;
    var c := if left == 0 then 0 else left / 16 - 1;
    p.(lists := if left == 0 then p.lists else p.lists[c := [p.start] + p.lists[c]],
       blocks := if left == 0 then p.blocks else p.blocks[p.start := left],
       start := p.grants[0].base, end := p.grants[0].base + bytes, grants := p.grants[1..],
       obtained := p.obtained + bytes)
  }

  lemma {:induction false} StockedIs(p: Pool, bytes: nat)
    requires |p.lists| == CLASSES && p.grants != [] && (p.end != p.start ==> IsSize(p.end - p.start))
    ensures Stocked(p, bytes) == Supplied(if p.end == p.start then p else LeftOver(p), bytes)
  {
  }
}
