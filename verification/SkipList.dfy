/** The two multi-level skip lists of the chunk manager: the used list, sorted by address, and the
    free list, sorted by size.  A slot's memory range and height never change once it is made; the
    only thing the list operations rewrite is its row of next pointers. */
module SkipLists {

  /** Number of rows the search walks: rows 0 .. MAX_SKIP_LEVEL - 1. */
  const MAX_SKIP_LEVEL: nat := 32

  class Slot {
    const mem: int
    const total: nat
    const level: nat
    var next: seq<Slot?>

    constructor (mem: int, total: nat, level: nat)
      ensures this.mem == mem && this.total == total && this.level == level
      ensures next == seq(level + 1, _ => null)
    {
      this.mem, this.total, this.level := mem, total, level;
      next := seq(level + 1, _ => null);
    }
  }

  // ---------------------------------------------------------------- the reference: plain sequences

  /** What a search asks for. */
  datatype Query = Exact(address: int) | Loose(address: int) | Size(size: int)

  /** The slot lies wholly before what the query asks for. */
  predicate Before(s: Slot, q: Query) {
    match q
    case Exact(a) => s.mem < a
    case Loose(a) => s.mem < a && s.mem + s.total <= a
    case Size(n) => s.total < n
  }

  predicate Matches(s: Slot, q: Query) {
    match q
    case Exact(a) => s.mem == a
    case Loose(a) => s.mem <= a < s.mem + s.total
    case Size(n) => s.total == n
  }

  /** Linear scan of the bottom row from index i on. */
  function Scan(nodes: seq<Slot>, i: nat, q: Query): (r: Slot?)
    requires i <= |nodes|
    decreases |nodes| - i
    ensures r != null ==> Matches(r, q)
  {
    if i == |nodes| then null
    else if Matches(nodes[i], q) then nodes[i]
    else Scan(nodes, i + 1, q)
  }

  lemma {:induction false} ScanMissesNone(nodes: seq<Slot>, i: nat, q: Query)
    requires i <= |nodes|
    decreases |nodes| - i
    ensures Scan(nodes, i, q) == null <==> forall k :: i <= k < |nodes| ==> !Matches(nodes[k], q)
  {
    if i < |nodes| && !Matches(nodes[i], q) { ScanMissesNone(nodes, i + 1, q); }
  }

  /** Index of the first slot at or after i that reaches row l; |nodes| when there is none. */
  function NextTall(nodes: seq<Slot>, i: nat, l: nat): (r: nat)
    requires i <= |nodes|
    decreases |nodes| - i
    ensures i <= r <= |nodes|
  {
    if i == |nodes| || nodes[i].level >= l then i else NextTall(nodes, i + 1, l)
  }

  lemma {:induction false} NextTallIsNext(nodes: seq<Slot>, i: nat, l: nat)
    requires i <= |nodes|
    decreases |nodes| - i
    ensures
      var r := NextTall(nodes, i, l);
      && (r < |nodes| ==> nodes[r].level >= l)
      && forall k :: i <= k < r ==> nodes[k].level < l
  {
    if i < |nodes| && nodes[i].level < l { NextTallIsNext(nodes, i + 1, l); }
  }

  /** Index of the last slot before p that reaches row l. */
  function LastTall(nodes: seq<Slot>, p: nat, l: nat): (r: nat)
    requires 0 < p <= |nodes| && nodes[0].level >= l
    decreases p
    ensures r < p && nodes[r].level >= l
  {
    if nodes[p - 1].level >= l then p - 1 else LastTall(nodes, p - 1, l)
  }

  lemma {:induction false} LastTallIsLast(nodes: seq<Slot>, p: nat, l: nat)
    requires 0 < p <= |nodes| && nodes[0].level >= l
    decreases p
    ensures forall k :: LastTall(nodes, p, l) < k < p ==> nodes[k].level < l
  {
    if nodes[p - 1].level < l { LastTallIsLast(nodes, p - 1, l); }
  }

  /** A slot that reaches the row, with only shorter ones between it and p, is that last slot. */
  lemma {:induction false} LastTallUnique(nodes: seq<Slot>, p: nat, l: nat, g: nat)
    requires g < p <= |nodes| && nodes[0].level >= l && nodes[g].level >= l
    requires forall k :: g < k < p ==> nodes[k].level < l
    decreases p
    ensures LastTall(nodes, p, l) == g
  {
    if g < p - 1 { LastTallUnique(nodes, p - 1, l, g); }
  }

  function Link(nodes: seq<Slot>, i: nat, l: nat): Slot?
    requires i <= |nodes|
  {
    var r := NextTall(nodes, i, l);
    if r == |nodes| then null else nodes[r]
  }

  /** The next pointers of the listed slots. */
  ghost function Rows(nodes: seq<Slot>): seq<seq<Slot?>>
    reads nodes
  {
    seq(|nodes|, i requires 0 <= i < |nodes| reads nodes => nodes[i].next)
  }

  predicate Shaped(rows: seq<seq<Slot?>>, nodes: seq<Slot>) {
    && |rows| == |nodes|
    && (forall i :: 0 <= i < |nodes| ==> |rows[i]| == nodes[i].level + 1 <= MAX_SKIP_LEVEL)
  }

  /** Row l holds exactly the slots that reach it, in the order of the bottom row. */
  predicate Linked(rows: seq<seq<Slot?>>, nodes: seq<Slot>) {
    && Shaped(rows, nodes)
    && (forall i, l {:trigger rows[i][l]} :: 0 <= i < |nodes| && 0 <= l <= nodes[i].level ==>
          rows[i][l] == Link(nodes, i + 1, l))
  }

  predicate Distinct(nodes: seq<Slot>) {
    forall i, j :: 0 <= i < j < |nodes| ==> nodes[i] != nodes[j]
  }

  predicate SortedByAddress(nodes: seq<Slot>) {
    && (forall i :: 1 <= i < |nodes| ==> nodes[i].total > 0)
    && (forall i, j :: 1 <= i < j < |nodes| ==> nodes[i].mem + nodes[i].total <= nodes[j].mem)
  }

  predicate SortedBySize(nodes: seq<Slot>) {
    forall i, j :: 1 <= i < j < |nodes| ==> nodes[i].total <= nodes[j].total
  }

  /** p cuts the list into the slots before the query and the rest. */
  predicate Cut(nodes: seq<Slot>, q: Query, p: nat) {
    && 1 <= p <= |nodes|
    && (forall i :: 1 <= i < p ==> Before(nodes[i], q))
    && (forall i :: p <= i < |nodes| ==> !Before(nodes[i], q))
  }

  /** The update path: per row, the last slot before p that reaches the row. */
  predicate Path(nodes: seq<Slot>, p: nat, update: seq<Slot>) {
    && 1 <= p <= |nodes| && nodes[0].level >= MAX_SKIP_LEVEL - 1
    && |update| == MAX_SKIP_LEVEL
    && forall l :: 0 <= l < MAX_SKIP_LEVEL ==> update[l] == nodes[LastTall(nodes, p, l)]
  }

  /** The bottom step of the path is the slot just before the cut. */
  lemma {:induction false} PathBottom(nodes: seq<Slot>, p: nat, update: seq<Slot>)
    requires Path(nodes, p, update)
    ensures update[0] == nodes[p - 1]
  {
    assert update[0] == nodes[LastTall(nodes, p, 0)];
  }

  /** Where the query cuts the list, scanning from index i. */
  function CutOf(nodes: seq<Slot>, q: Query, i: nat): (p: nat)
    requires 1 <= i <= |nodes|
    decreases |nodes| - i
    ensures i <= p <= |nodes|
    ensures forall k :: i <= k < p ==> Before(nodes[k], q)
    ensures p < |nodes| ==> !Before(nodes[p], q)
  {
    if i == |nodes| || !Before(nodes[i], q) then i else CutOf(nodes, q, i + 1)
  }

  ghost predicate SortedFor(nodes: seq<Slot>, q: Query) {
    if q.Size? then SortedBySize(nodes) else SortedByAddress(nodes)
  }

  /** In a sorted list the cut is exact, and the scan can only succeed right at the cut. */
  lemma {:induction false} CutIsExact(nodes: seq<Slot>, q: Query)
    requires 0 < |nodes| && SortedFor(nodes, q)
    ensures Cut(nodes, q, CutOf(nodes, q, 1))
  {
  }

  lemma {:induction false} ScanAtCut(nodes: seq<Slot>, q: Query, p: nat, i: nat)
    requires SortedFor(nodes, q) && Cut(nodes, q, p) && 1 <= i <= p
    decreases p - i
    ensures Scan(nodes, i, q) == (if p < |nodes| && Matches(nodes[p], q) then nodes[p] else null)
  {
    if i < p {
      ScanAtCut(nodes, q, p, i + 1);
    } else {
      ScanMissesNone(nodes, p, q);
    }
  }

  /** A match can only sit at the cut or, for sizes, after equal slots that start there. */
  lemma {:induction false} MatchAtCut(nodes: seq<Slot>, q: Query, p: nat, s: Slot)
    requires SortedFor(nodes, q) && Cut(nodes, q, p) && s in nodes[1..] && Matches(s, q)
    ensures p < |nodes| && Matches(nodes[p], q) && (!q.Size? ==> s == nodes[p])
  {
  }

  /** The rows above row l of the update path are set. */
  predicate RowsDone(nodes: seq<Slot>, p: nat, l: int, update: seq<Slot>) {
    && 1 <= p <= |nodes| && nodes[0].level >= MAX_SKIP_LEVEL - 1
    && |update| == MAX_SKIP_LEVEL
    && forall k :: 0 <= k < MAX_SKIP_LEVEL && l < k ==> update[k] == nodes[LastTall(nodes, p, k)]
  }

  /** Going down from slot g of row l when the next slot of the row is past the cut. */
  lemma {:induction false} LowerRow(nodes: seq<Slot>, p: nat, l: nat, update: seq<Slot>, g: nat)
    requires RowsDone(nodes, p, l, update) && l < MAX_SKIP_LEVEL
    requires g < p && nodes[g].level >= l && p <= NextTall(nodes, g + 1, l)
    ensures RowsDone(nodes, p, l - 1, update[l := nodes[g]])
  {
    NextTallIsNext(nodes, g + 1, l);
    LastTallUnique(nodes, p, l, g);
  }

  /** What a search leaves behind: the cut, the update path, and what a linear scan finds. */
  ghost predicate SearchResult(nodes: seq<Slot>, q: Query, found: Slot?, update: seq<Slot>, p: nat) {
    && Cut(nodes, q, p)
    && Path(nodes, p, update)
    && found == Scan(nodes, 1, q)
    && (found != null ==> p < |nodes| && found == nodes[p])
  }

  lemma {:induction false} SearchDone(nodes: seq<Slot>, q: Query, found: Slot?, update: seq<Slot>, p: nat, f: nat)
    requires SortedFor(nodes, q) && Cut(nodes, q, p) && RowsDone(nodes, p, -1, update)
    requires found != null ==> p <= f < |nodes| && found == nodes[f] && Matches(found, q)
    requires p < |nodes| && Matches(nodes[p], q) ==> found == nodes[p]
    ensures SearchResult(nodes, q, found, update, p)
  {
    ScanAtCut(nodes, q, p, 1);
    if found != null { MatchAtCut(nodes, q, p, found); }
  }

  /** Progress of an address search that stands at slot g of row l, with f the match so far. */
  ghost predicate Searching(nodes: seq<Slot>, q: Query, p: nat, l: int, update: seq<Slot>,
                            g: nat, found: Slot?, f: nat) {
    && RowsDone(nodes, p, l, update) && Cut(nodes, q, p) && SortedFor(nodes, q)
    && g < p
    && (found != null ==> p <= f < |nodes| && found == nodes[f] && Matches(found, q))
  }

  /** One step of a search: right when the next slot of the row is before what is asked for, else
      down a row, taking the next slot as the match when it is one. */
  lemma {:induction false} SearchStep(nodes: seq<Slot>, q: Query, p: nat, l: nat, update: seq<Slot>,
                    g: nat, found: Slot?, f: nat)
    requires Searching(nodes, q, p, l, update, g, found, f)
    requires l < MAX_SKIP_LEVEL && nodes[g].level >= l
    ensures
      var r := NextTall(nodes, g + 1, l);
      if r < |nodes| && nodes[r] != found && Before(nodes[r], q)
      then Searching(nodes, q, p, l, update, r, found, f)
      else
        var (found', f') := if r < |nodes| && nodes[r] != found && Matches(nodes[r], q) then (nodes[r], r)
                            else (found, f);
        var update' := update[l := nodes[g]];
        && Searching(nodes, q, p, l - 1, update', g, found', f')
        && (l == 0 ==> SearchResult(nodes, q, found', update', p))
  {
    var r := NextTall(nodes, g + 1, l);
    if r == |nodes| || nodes[r] == found || !Before(nodes[r], q) {
      LowerRow(nodes, p, l, update, g);
      if l == 0 {
        var (found', f') := if r < |nodes| && nodes[r] != found && Matches(nodes[r], q) then (nodes[r], r)
                            else (found, f);
        SearchDone(nodes, q, found', update[l := nodes[g]], p, f');
      }
    }
  }

  /** random_level: counts even draws in a row, up to MAX_SKIP_LEVEL of them.  The level leaves a
      search row free, as a later removal needs, exactly when an odd draw comes early enough. */
  method RandomLevel(draws: seq<int>) returns (level: nat)
    requires |draws| == MAX_SKIP_LEVEL
    ensures level <= MAX_SKIP_LEVEL
    ensures forall i :: 0 <= i < level ==> draws[i] % 2 == 0
    ensures level < MAX_SKIP_LEVEL ==> draws[level] % 2 == 1
    ensures level + 1 < MAX_SKIP_LEVEL <==> exists i :: 0 <= i < MAX_SKIP_LEVEL - 1 && draws[i] % 2 == 1
  {
    level := 0;
    while level < MAX_SKIP_LEVEL
      invariant level <= MAX_SKIP_LEVEL
      invariant forall i :: 0 <= i < level ==> draws[i] % 2 == 0
    {
      if draws[level] % 2 == 1 {
        break;
      }
      level := level + 1;
    }
  }

  // ---------------------------------------------------------------- splicing rows

  function Inserted(nodes: seq<Slot>, p: nat, x: Slot): seq<Slot>
    requires p <= |nodes|
  {
    nodes[..p] + [x] + nodes[p..]
  }

  function Removed(nodes: seq<Slot>, p: nat): seq<Slot>
    requires p < |nodes|
  {
    nodes[..p] + nodes[p + 1..]
  }

  /** Slots too short for row l do not change where the row goes next. */
  lemma {:induction false} NextTallSkips(nodes: seq<Slot>, i: nat, j: nat, l: nat)
    requires i <= j <= |nodes| && forall k :: i <= k < j ==> nodes[k].level < l
    decreases j - i
    ensures NextTall(nodes, i, l) == NextTall(nodes, j, l)
  {
    if i < j { NextTallSkips(nodes, i + 1, j, l); }
  }

  lemma {:induction false} NextTallAtMost(nodes: seq<Slot>, i: nat, j: nat, l: nat)
    requires i <= j < |nodes| && nodes[j].level >= l
    decreases j - i
    ensures NextTall(nodes, i, l) <= j
  {
    if i < j { NextTallAtMost(nodes, i + 1, j, l); }
  }

  lemma {:induction false} NextTallAfterInsert(nodes: seq<Slot>, p: nat, x: Slot, i: nat, l: nat)
    requires p <= i <= |nodes|
    decreases |nodes| - i
    ensures NextTall(Inserted(nodes, p, x), i + 1, l) == NextTall(nodes, i, l) + 1
  {
    if i < |nodes| {
      assert Inserted(nodes, p, x)[i + 1] == nodes[i];
      NextTallAfterInsert(nodes, p, x, i + 1, l);
    }
  }

  lemma {:induction false} NextTallUpToInsert(nodes: seq<Slot>, p: nat, x: Slot, i: nat, l: nat)
    requires i <= p <= |nodes|
    decreases p - i
    ensures NextTall(Inserted(nodes, p, x), i, l) ==
      var r := NextTall(nodes, i, l);
      if r < p then r else if l <= x.level then p else r + 1
  {
    if i == p {
      NextTallAfterInsert(nodes, p, x, p, l);
    } else {
      assert Inserted(nodes, p, x)[i] == nodes[i];
      NextTallUpToInsert(nodes, p, x, i + 1, l);
    }
  }

  lemma {:induction false} LinkAfterInsert(nodes: seq<Slot>, p: nat, x: Slot, i: nat, l: nat)
    requires p <= i <= |nodes|
    ensures Link(Inserted(nodes, p, x), i + 1, l) == Link(nodes, i, l)
  {
    NextTallAfterInsert(nodes, p, x, i, l);
    var r := NextTall(nodes, i, l);
    assert r < |nodes| ==> Inserted(nodes, p, x)[r + 1] == nodes[r];
  }

  /** Row l before the place p where x is spliced in: only the last slot before p that reaches the
      row gets a new next. */
  lemma {:induction false} LinkBeforeInsert(nodes: seq<Slot>, p: nat, x: Slot, i: nat, l: nat)
    requires i < p <= |nodes| && l <= nodes[i].level && l <= nodes[0].level
    ensures Link(Inserted(nodes, p, x), i + 1, l) ==
      if l <= x.level && i == LastTall(nodes, p, l) then x else Link(nodes, i + 1, l)
  {
    var last := LastTall(nodes, p, l);
    LastTallIsLast(nodes, p, l);
    NextTallUpToInsert(nodes, p, x, i + 1, l);
    if i != last {
      NextTallAtMost(nodes, i + 1, last, l);
    } else {
      NextTallSkips(nodes, i + 1, p, l);
      if x.level < l { LinkAfterInsert(nodes, p, x, p, l); }
    }
  }

  /** x takes over the old next of the last slot before it that reaches the row. */
  lemma {:induction false} LinkOfInserted(nodes: seq<Slot>, p: nat, x: Slot, l: nat)
    requires 0 < p <= |nodes| && l <= x.level && l <= nodes[0].level
    ensures Link(Inserted(nodes, p, x), p + 1, l) == Link(nodes, LastTall(nodes, p, l) + 1, l)
  {
    LastTallIsLast(nodes, p, l);
    NextTallSkips(nodes, LastTall(nodes, p, l) + 1, p, l);
    LinkAfterInsert(nodes, p, x, p, l);
  }

  /** From the rows `was` on, rows 0 .. l-1 already run through x, whose own row is xrow. */
  predicate Spliced(was: seq<seq<Slot?>>, rows: seq<seq<Slot?>>, xrow: seq<Slot?>,
                    nodes: seq<Slot>, p: nat, x: Slot, l: nat) {
    && Shaped(was, nodes) && Shaped(rows, nodes)
    && 0 < p <= |nodes| && nodes[0].level >= MAX_SKIP_LEVEL - 1
    && l <= x.level + 1 == |xrow| <= MAX_SKIP_LEVEL
    && (forall i, k {:trigger rows[i][k]} :: 0 <= i < |nodes| && 0 <= k <= nodes[i].level ==>
          rows[i][k] == if k < l && i == LastTall(nodes, p, k) then x else was[i][k])
    && (forall k :: 0 <= k < l ==> xrow[k] == was[LastTall(nodes, p, k)][k])
  }

  lemma {:induction false} SplicedStep(was: seq<seq<Slot?>>, rows: seq<seq<Slot?>>, xrow: seq<Slot?>,
                                       nodes: seq<Slot>, p: nat, x: Slot, l: nat)
    requires Spliced(was, rows, xrow, nodes, p, x, l) && l <= x.level
    ensures
      var last := LastTall(nodes, p, l);
      Spliced(was, rows[last := rows[last][l := x]], xrow[l := rows[last][l]], nodes, p, x, l + 1)
  {
  }

  lemma {:induction false} SplicedDone(was: seq<seq<Slot?>>, rows: seq<seq<Slot?>>, xrow: seq<Slot?>,
                                       nodes: seq<Slot>, p: nat, x: Slot)
    requires Linked(was, nodes) && Spliced(was, rows, xrow, nodes, p, x, x.level + 1)
    ensures Linked(rows[..p] + [xrow] + rows[p..], Inserted(nodes, p, x))
  {
    var after, rows' := Inserted(nodes, p, x), rows[..p] + [xrow] + rows[p..];
    forall j, l | 0 <= j < |after| && 0 <= l <= after[j].level
      ensures |rows'[j]| == after[j].level + 1 && rows'[j][l] == Link(after, j + 1, l)
    {
      if j == p {
        LinkOfInserted(nodes, p, x, l);
      } else if j < p {
        LinkBeforeInsert(nodes, p, x, j, l);
      } else {
        assert after[j] == nodes[j - 1] && rows'[j] == rows[j - 1];
        assert j - 1 != LastTall(nodes, p, l);
        LinkAfterInsert(nodes, p, x, j, l);
      }
    }
  }

  lemma {:induction false} InsertedAt(nodes: seq<Slot>, p: nat, x: Slot)
    requires p <= |nodes|
    ensures forall k :: 0 <= k < p ==> Inserted(nodes, p, x)[k] == nodes[k]
    ensures Inserted(nodes, p, x)[p] == x
    ensures forall k :: p < k <= |nodes| ==> Inserted(nodes, p, x)[k] == nodes[k - 1]
  {
  }

  lemma {:induction false} InsertedDistinct(nodes: seq<Slot>, p: nat, x: Slot)
    requires Distinct(nodes) && x !in nodes && p <= |nodes|
    ensures Distinct(Inserted(nodes, p, x))
  {
    InsertedAt(nodes, p, x);
  }

  lemma {:induction false} InsertedBySize(nodes: seq<Slot>, p: nat, x: Slot)
    requires SortedBySize(nodes) && Cut(nodes, Size(x.total), p)
    ensures SortedBySize(Inserted(nodes, p, x))
  {
    InsertedAt(nodes, p, x);
  }

  lemma {:induction false} InsertedByAddress(nodes: seq<Slot>, p: nat, x: Slot)
    requires SortedByAddress(nodes) && Cut(nodes, Exact(x.mem), p) && x.total > 0
    requires forall i :: 1 <= i < |nodes| ==>
      nodes[i].mem + nodes[i].total <= x.mem || x.mem + x.total <= nodes[i].mem
    ensures SortedByAddress(Inserted(nodes, p, x))
  {
    InsertedAt(nodes, p, x);
  }

  lemma {:induction false} RemovedOrder(nodes: seq<Slot>, p: nat, q: Query)
    requires SortedFor(nodes, q) && Distinct(nodes) && 1 <= p < |nodes|
    ensures SortedFor(Removed(nodes, p), q) && Distinct(Removed(nodes, p))
    ensures nodes[p] !in Removed(nodes, p) && Inserted(Removed(nodes, p), p, nodes[p]) == nodes
  {
    var after := Removed(nodes, p);
    assert forall k :: p <= k < |after| ==> after[k] == nodes[k + 1];
  }

  /** From the rows `was` on, rows 0 .. l-1 already bypass the slot at p. */
  predicate Bypassed(was: seq<seq<Slot?>>, rows: seq<seq<Slot?>>, nodes: seq<Slot>, p: nat, l: nat) {
    && Shaped(was, nodes) && Shaped(rows, nodes)
    && 0 < p < |nodes| && nodes[0].level >= MAX_SKIP_LEVEL - 1
    && l <= nodes[p].level + 1
    && (forall i, k {:trigger rows[i][k]} :: 0 <= i < |nodes| && 0 <= k <= nodes[i].level ==>
          rows[i][k] == if k < l && i == LastTall(nodes, p, k) then was[p][k] else was[i][k])
  }

  lemma {:induction false} BypassedStep(was: seq<seq<Slot?>>, rows: seq<seq<Slot?>>,
                                        nodes: seq<Slot>, p: nat, l: nat)
    requires Bypassed(was, rows, nodes, p, l) && l <= nodes[p].level
    ensures
      var last := LastTall(nodes, p, l);
      Bypassed(was, rows[last := rows[last][l := rows[p][l]]], nodes, p, l + 1)
  {
  }

  /** The row's last slot before p points at x exactly when x sits at p and reaches the row. */
  lemma {:induction false} RowReaches(was: seq<seq<Slot?>>, nodes: seq<Slot>, p: nat, l: nat, x: Slot)
    requires Linked(was, nodes) && Distinct(nodes) && 0 < p <= |nodes|
    requires l < MAX_SKIP_LEVEL == nodes[0].level + 1
    requires l == 0 || (p < |nodes| && nodes[p] == x)
    ensures was[LastTall(nodes, p, l)][l] == x <==> p < |nodes| && nodes[p] == x && l <= x.level
  {
    LastTallIsLast(nodes, p, l);
    NextTallSkips(nodes, LastTall(nodes, p, l) + 1, p, l);
    assert was[LastTall(nodes, p, l)][l] == Link(nodes, p, l);
  }

  /** The row walk of a removal meets a row that does not lead to x, and so stops, within the rows a
      search sets exactly when x leaves at least one of those rows free. */
  lemma {:induction false} RemovalStopsInPath(was: seq<seq<Slot?>>, nodes: seq<Slot>, p: nat, x: Slot)
    requires Linked(was, nodes) && Distinct(nodes) && 0 < p < |nodes| && nodes[p] == x
    requires nodes[0].level == MAX_SKIP_LEVEL - 1
    ensures (exists l: nat :: l < MAX_SKIP_LEVEL && was[LastTall(nodes, p, l)][l] != x)
      <==> x.level + 1 < MAX_SKIP_LEVEL
  {
    forall l: nat | l < MAX_SKIP_LEVEL
      ensures was[LastTall(nodes, p, l)][l] == x <==> l <= x.level
    {
      RowReaches(was, nodes, p, l, x);
    }
    assert |was[p]| == nodes[p].level + 1;
    if x.level + 1 < MAX_SKIP_LEVEL {
      assert was[LastTall(nodes, p, x.level + 1)][x.level + 1] != x;
    }
  }

  lemma {:induction false} BypassedDone(was: seq<seq<Slot?>>, rows: seq<seq<Slot?>>,
                                        nodes: seq<Slot>, p: nat)
    requires Linked(was, nodes) && 0 < p < |nodes| && Bypassed(was, rows, nodes, p, nodes[p].level + 1)
    requires Inserted(Removed(nodes, p), p, nodes[p]) == nodes
    ensures Linked(rows[..p] + rows[p + 1..], Removed(nodes, p))
  {
    var before, rows' := Removed(nodes, p), rows[..p] + rows[p + 1..];
    forall j, l | 0 <= j < |before| && 0 <= l <= before[j].level
      ensures |rows'[j]| == before[j].level + 1 && rows'[j][l] == Link(before, j + 1, l)
    {
      if j < p {
        assert before[j] == nodes[j] && rows'[j] == rows[j];
        BypassedBefore(was, rows, nodes, p, j, l);
      } else {
        assert before[j] == nodes[j + 1] && rows'[j] == rows[j + 1];
        BypassedAfter(was, rows, nodes, p, j, l);
      }
    }
  }

  lemma {:induction false} BypassedBefore(was: seq<seq<Slot?>>, rows: seq<seq<Slot?>>,
                                          nodes: seq<Slot>, p: nat, j: nat, l: nat)
    requires Linked(was, nodes) && 0 < p < |nodes| && Bypassed(was, rows, nodes, p, nodes[p].level + 1)
    requires Inserted(Removed(nodes, p), p, nodes[p]) == nodes
    requires j < p && l <= nodes[j].level
    ensures rows[j][l] == Link(Removed(nodes, p), j + 1, l)
  {
    BypassedLink(nodes, p, j, l);
    assert was[j][l] == Link(nodes, j + 1, l);
    if l <= nodes[p].level && j == LastTall(nodes, p, l) {
      assert was[p][l] == Link(nodes, p + 1, l);
      assert rows[j][l] == was[p][l];
    } else {
      assert rows[j][l] == was[j][l];
    }
  }

  lemma {:induction false} BypassedAfter(was: seq<seq<Slot?>>, rows: seq<seq<Slot?>>,
                                         nodes: seq<Slot>, p: nat, j: nat, l: nat)
    requires Linked(was, nodes) && 0 < p < |nodes| && Bypassed(was, rows, nodes, p, nodes[p].level + 1)
    requires Inserted(Removed(nodes, p), p, nodes[p]) == nodes
    requires p <= j < |nodes| - 1 && l <= nodes[j + 1].level
    ensures rows[j + 1][l] == Link(Removed(nodes, p), j + 1, l)
  {
    assert j + 1 != LastTall(nodes, p, l);
    assert was[j + 1][l] == Link(nodes, j + 2, l);
    LinkAfterInsert(Removed(nodes, p), p, nodes[p], j + 1, l);
  }

  lemma {:induction false} BypassedLink(nodes: seq<Slot>, p: nat, j: nat, l: nat)
    requires j < p < |nodes| && l <= nodes[j].level && l <= nodes[0].level
    requires Inserted(Removed(nodes, p), p, nodes[p]) == nodes
    ensures Link(Removed(nodes, p), j + 1, l) ==
      if l <= nodes[p].level && j == LastTall(nodes, p, l) then Link(nodes, p + 1, l)
      else Link(nodes, j + 1, l)
  {
    var before, x := Removed(nodes, p), nodes[p];
    LastTallOfPrefix(nodes, before, p, l);
    LinkBeforeInsert(before, p, x, j, l);
    if l <= x.level { LinkOfInserted(before, p, x, l); }
  }

  lemma {:induction false} LastTallOfPrefix(nodes: seq<Slot>, other: seq<Slot>, p: nat, l: nat)
    requires 0 < p <= |nodes| && p <= |other| && nodes[..p] == other[..p] && nodes[0].level >= l
    decreases p
    ensures other[0].level >= l && LastTall(nodes, p, l) == LastTall(other, p, l)
  {
    assert nodes[p - 1] == nodes[..p][p - 1] == other[p - 1];
    if nodes[p - 1].level < l {
      assert nodes[..p - 1] == nodes[..p][..p - 1] == other[..p - 1];
      LastTallOfPrefix(nodes, other, p - 1, l);
    } else {
      assert nodes[0] == nodes[..p][0] == other[0];
    }
  }

  lemma {:induction false} RowsInserted(nodes: seq<Slot>, p: nat, x: Slot)
    requires p <= |nodes|
    ensures Rows(Inserted(nodes, p, x)) == Rows(nodes)[..p] + [x.next] + Rows(nodes)[p..]
  {
    var a, b := Rows(Inserted(nodes, p, x)), Rows(nodes)[..p] + [x.next] + Rows(nodes)[p..];
    assert |a| == |b|;
    assert forall i :: 0 <= i < |a| ==> a[i] == b[i];
  }

  lemma {:induction false} RowsRemoved(nodes: seq<Slot>, p: nat)
    requires p < |nodes|
    ensures Rows(Removed(nodes, p)) == Rows(nodes)[..p] + Rows(nodes)[p + 1..]
  {
    var a, b := Rows(Removed(nodes, p)), Rows(nodes)[..p] + Rows(nodes)[p + 1..];
    assert |a| == |b|;
    assert forall i :: 0 <= i < |a| ==> a[i] == b[i];
  }

  ghost predicate Ordered(nodes: seq<Slot>, bySize: bool) {
    if bySize then SortedBySize(nodes) else SortedByAddress(nodes)
  }

  /** Everything the list invariant asks of the nodes and their rows. */
  ghost predicate ListInvariant(nodes: seq<Slot>, bySize: bool)
    reads nodes
  {
    && 0 < |nodes| && nodes[0].level == MAX_SKIP_LEVEL - 1
    && Distinct(nodes) && Ordered(nodes, bySize)
    && Linked(Rows(nodes), nodes)
  }

  lemma {:induction false} RemovedIsShaped(was: seq<seq<Slot?>>, nodes: seq<Slot>, p: nat, x: Slot, bySize: bool)
    requires Linked(was, nodes) && Distinct(nodes) && Ordered(nodes, bySize)
    requires 1 <= p < |nodes| && nodes[p] == x && nodes[0].level == MAX_SKIP_LEVEL - 1
    requires Bypassed(was, Rows(nodes), nodes, p, x.level + 1)
    ensures ListInvariant(Removed(nodes, p), bySize) && x !in Removed(nodes, p)
  {
    RemovedOrder(nodes, p, if bySize then Size(0) else Exact(0));
    BypassedDone(was, Rows(nodes), nodes, p);
    RowsRemoved(nodes, p);
  }

  lemma {:induction false} InsertedIsShaped(was: seq<seq<Slot?>>, nodes: seq<Slot>, p: nat, x: Slot, bySize: bool)
    requires Linked(was, nodes) && Distinct(nodes) && Ordered(nodes, bySize)
    requires x !in nodes && 0 < |nodes| && nodes[0].level == MAX_SKIP_LEVEL - 1
    requires Cut(nodes, if bySize then Size(x.total) else Exact(x.mem), p)
    requires !bySize ==> x.total > 0 && forall i :: 1 <= i < |nodes| ==>
      nodes[i].mem + nodes[i].total <= x.mem || x.mem + x.total <= nodes[i].mem
    requires Spliced(was, Rows(nodes), x.next, nodes, p, x, x.level + 1)
    ensures ListInvariant(Inserted(nodes, p, x), bySize)
  {
    InsertedDistinct(nodes, p, x);
    if bySize { InsertedBySize(nodes, p, x); } else { InsertedByAddress(nodes, p, x); }
    SplicedDone(was, Rows(nodes), x.next, nodes, p, x);
    RowsInserted(nodes, p, x);
  }

  // ---------------------------------------------------------------- the list

  class SkipList {
    const bySize: bool
    const head: Slot
    ghost var nodes: seq<Slot>

    ghost predicate Valid()
      reads this, nodes
    {
      ListInvariant(nodes, bySize) && nodes[0] == head && head.total == 0
    }

    constructor (bySize: bool)
      ensures Valid() && this.bySize == bySize && nodes == [head] && fresh(head)
    {
      this.bySize := bySize;
      var h := new Slot(0, 0, MAX_SKIP_LEVEL - 1);
      head := h;
      nodes := [h];
    }

    /** find_address on the used list: what a linear scan of the bottom row finds (the slot that
        starts at the address or, in a loose search, contains it), and the update path. */
    method FindAddress(address: int, exact: bool)
      returns (found: Slot?, update: seq<Slot>, ghost p: nat)
      requires Valid() && !bySize
      ensures var q := if exact then Exact(address) else Loose(address);
        p == CutOf(nodes, q, 1) && SearchResult(nodes, q, found, update, p)
      ensures found == Scan(nodes, 1, if exact then Exact(address) else Loose(address))
    {
      ghost var q := if exact then Exact(address) else Loose(address);
      p := CutOf(nodes, q, 1);
      CutIsExact(nodes, q);
      found := null;
      update := seq(MAX_SKIP_LEVEL, _ => head);
      var slot: Slot, level: nat := head, MAX_SKIP_LEVEL - 1;
      ghost var g: nat, f: nat := 0, 0;
      while true
        invariant level < MAX_SKIP_LEVEL
        invariant g < |nodes| && slot == nodes[g] && level <= slot.level
        invariant Searching(nodes, q, p, level, update, g, found, f)
        decreases level, |nodes| - g
      {
        SearchStep(nodes, q, p, level, update, g, found, f);
        var next, r := RowNext(slot, level, g);
        if next == null || next == found || next.mem > address {
        } else if next.mem == address || (!exact && next.mem + next.total > address) {
          found, f := next, r;
        } else {
          slot, g := next, r;
          continue;
        }
        update := update[level := slot];
        if level == 0 {
          break;
        }
        level := level - 1;
      }
    }

    /** find_free_size: the first listed slot of exactly the asked size, and the update path. */
    method FindFreeSize(size: nat)
      returns (found: Slot?, update: seq<Slot>, ghost p: nat)
      requires Valid() && bySize
      ensures p == CutOf(nodes, Size(size), 1) && SearchResult(nodes, Size(size), found, update, p)
      ensures found == Scan(nodes, 1, Size(size))
    {
      ghost var q := Size(size);
      p := CutOf(nodes, q, 1);
      CutIsExact(nodes, q);
      found := null;
      update := seq(MAX_SKIP_LEVEL, _ => head);
      var slot: Slot, level: nat := head, MAX_SKIP_LEVEL - 1;
      ghost var g: nat, f: nat := 0, 0;
      while true
        invariant level < MAX_SKIP_LEVEL
        invariant g < |nodes| && slot == nodes[g] && level <= slot.level
        invariant Searching(nodes, q, p, level, update, g, found, f)
        decreases level, |nodes| - g
      {
        SearchStep(nodes, q, p, level, update, g, found, f);
        var next, r := RowNext(slot, level, g);
        if next == null || next == found {
        } else {
          var cmp := next.total - size;
          if cmp < 0 {
            slot, g := next, r;
            continue;
          } else if cmp == 0 {
            found, f := next, r;
          }
        }
        update := update[level := slot];
        if level == 0 {
          break;
        }
        level := level - 1;
      }
    }

    /** One step along row l from the slot at index g. */
    method RowNext(slot: Slot, l: nat, ghost g: nat) returns (next: Slot?, ghost r: nat)
      requires Valid() && g < |nodes| && slot == nodes[g] && l <= slot.level
      ensures r == NextTall(nodes, g + 1, l) && (r < |nodes| ==> nodes[r].level >= l)
      ensures next == if r == |nodes| then null else nodes[r]
    {
      next := slot.next[l];
      r := NextTall(nodes, g + 1, l);
      NextTallIsNext(nodes, g + 1, l);
      assert next == Rows(nodes)[g][l];
    }

    /** Rewires row l: x goes between the row's last slot before p and that slot's old next. */
    static method SpliceRow(x: Slot, l: nat, update: seq<Slot>,
                            ghost nodes: seq<Slot>, ghost p: nat, ghost was: seq<seq<Slot?>>)
      requires Path(nodes, p, update) && x !in nodes && Distinct(nodes)
      requires l <= x.level && Spliced(was, Rows(nodes), x.next, nodes, p, x, l)
      modifies nodes, x
      ensures Spliced(was, Rows(nodes), x.next, nodes, p, x, l + 1)
    {
      var adjust := update[l];
      ghost var last, rows := LastTall(nodes, p, l), Rows(nodes);
      SplicedStep(was, rows, x.next, nodes, p, x, l);
      x.next := x.next[l := adjust.next[l]];
      adjust.next := adjust.next[l := x];
      assert Rows(nodes) == rows[last := rows[last][l := x]];
    }

    /** insert_slot: refuses a second slot at the same address of the used list, else puts the slot
        in front of the first slot that is not before it. */
    method InsertSlot(x: Slot) returns (ok: bool)
      requires Valid() && x !in nodes && |x.next| == x.level + 1 && x.level < MAX_SKIP_LEVEL
      requires !bySize ==> x.total > 0 && forall i :: 1 <= i < |nodes| ==>
        nodes[i].mem == x.mem || nodes[i].mem + nodes[i].total <= x.mem || x.mem + x.total <= nodes[i].mem
      modifies this, nodes, x
      ensures Valid()
      ensures ok <==> bySize || old(Scan(nodes, 1, Exact(x.mem))) == null
      ensures !ok ==> nodes == old(nodes) && Rows(nodes) == old(Rows(nodes))
      ensures ok ==>
        nodes == Inserted(old(nodes), CutOf(old(nodes), if bySize then Size(x.total) else Exact(x.mem), 1), x)
    {
      var update: seq<Slot>;
      ghost var p: nat;
      ok, update, p := FindPlace(x);
      if ok {
        ghost var was := Rows(nodes);
        InsertRows(x, update, nodes, p, was);
        InsertedIsShaped(was, nodes, p, x, bySize);
        nodes := Inserted(nodes, p, x);
      }
    }

    /** The search of insert_slot, and its check that no slot starts at the same address. */
    method FindPlace(x: Slot) returns (ok: bool, update: seq<Slot>, ghost p: nat)
      requires Valid()
      ensures ok <==> bySize || Scan(nodes, 1, Exact(x.mem)) == null
      ensures p == CutOf(nodes, if bySize then Size(x.total) else Exact(x.mem), 1)
      ensures Cut(nodes, if bySize then Size(x.total) else Exact(x.mem), p) && Path(nodes, p, update)
      ensures ok && !bySize ==> forall i :: 1 <= i < |nodes| ==> nodes[i].mem != x.mem
    {
      if bySize {
        var found;
        found, update, p := FindFreeSize(x.total);
        return true, update, p;
      } else {
        var found;
        found, update, p := FindAddress(x.mem, true);
        ScanMissesNone(nodes, 1, Exact(x.mem));
        assert found == null ==> forall i :: 1 <= i < |nodes| ==> !Matches(nodes[i], Exact(x.mem));
        return found == null, update, p;
      }
    }

    /** The level loop of insert_slot. */
    static method InsertRows(x: Slot, update: seq<Slot>,
                            ghost nodes: seq<Slot>, ghost p: nat, ghost was: seq<seq<Slot?>>)
      requires Path(nodes, p, update) && x !in nodes && Distinct(nodes)
      requires Spliced(was, Rows(nodes), x.next, nodes, p, x, 0)
      modifies nodes, x
      ensures Spliced(was, Rows(nodes), x.next, nodes, p, x, x.level + 1)
    {
      var l: nat := 0;
      while l <= x.level
        invariant Spliced(was, Rows(nodes), x.next, nodes, p, x, l)
      {
        SpliceRow(x, l, update, nodes, p, was);
        l := l + 1;
      }
    }

    /** remove_slot: takes the slot out of every row it is in, given the update path that leads to
        it; false, and nothing changed, when the path leads somewhere else. */
    method RemoveSlot(x: Slot, update: seq<Slot>, ghost p: nat) returns (ok: bool)
      requires Valid() && Path(nodes, p, update)
      requires x.level + 1 < MAX_SKIP_LEVEL
      modifies this, nodes
      ensures Valid()
      ensures ok <==> p < |old(nodes)| && old(nodes)[p] == x
      ensures ok ==> nodes == Removed(old(nodes), p) && x !in nodes && |x.next| == x.level + 1
      ensures !ok ==> nodes == old(nodes) && Rows(nodes) == old(Rows(nodes))
    {
      ghost var was := Rows(nodes);
      ok := RemoveRows(x, update, nodes, p, was);
      if ok {
        RemovedIsShaped(was, nodes, p, x, bySize);
        assert x.next == Rows(nodes)[p];
        nodes := Removed(nodes, p);
      }
    }

    /** The level loop of remove_slot, and its final check that the slot was found at all. */
    static method RemoveRows(x: Slot, update: seq<Slot>,
                            ghost nodes: seq<Slot>, ghost p: nat, ghost was: seq<seq<Slot?>>) returns (ok: bool)
      requires Path(nodes, p, update) && x.level + 1 < MAX_SKIP_LEVEL == nodes[0].level + 1
      requires Distinct(nodes) && was == Rows(nodes) && Linked(was, nodes)
      modifies nodes
      ensures ok <==> p < |nodes| && nodes[p] == x
      ensures ok ==> Bypassed(was, Rows(nodes), nodes, p, x.level + 1)
      ensures !ok ==> Rows(nodes) == was
    {
      ghost var here := p < |nodes| && nodes[p] == x;
      var l: nat := 0;
      while l <= MAX_SKIP_LEVEL
        invariant here ==> l <= x.level + 1 && Bypassed(was, Rows(nodes), nodes, p, l)
        invariant !here ==> l == 0 && Rows(nodes) == was
      {
        var adjust := update[l];
        RowReaches(was, nodes, p, l, x);
        assert adjust.next[l] == was[LastTall(nodes, p, l)][l] by {
          assert adjust.next == Rows(nodes)[LastTall(nodes, p, l)];
        }
        if adjust.next[l] != x {
          assert here ==> l == x.level + 1;
          break;
        }
        BypassRow(x, l, update, nodes, p, was);
        l := l + 1;
      }
      assert here ==> l == x.level + 1;
      if l == 0 {
        return false;
      }
      return true;
    }

    /** Rewires row l: the slot before x in the row takes over x's next. */
    static method BypassRow(x: Slot, l: nat, update: seq<Slot>,
                            ghost nodes: seq<Slot>, ghost p: nat, ghost was: seq<seq<Slot?>>)
      requires Path(nodes, p, update) && Distinct(nodes) && p < |nodes| && nodes[p] == x
      requires l <= x.level && Bypassed(was, Rows(nodes), nodes, p, l)
      modifies nodes
      ensures Bypassed(was, Rows(nodes), nodes, p, l + 1)
    {
      var adjust := update[l];
      ghost var last, rows := LastTall(nodes, p, l), Rows(nodes);
      BypassedStep(was, rows, nodes, p, l);
      adjust.next := adjust.next[l := x.next[l]];
      assert Rows(nodes) == rows[last := rows[last][l := rows[p][l]]];
    }
  }
}
