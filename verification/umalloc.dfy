/**
 The user-level allocator (umalloc.c): a circular free list in address order, first
 fit, with coalescing. Addresses count header-sized units.
*/
module Umalloc {
  import opened Common

  const HEADER: nat := 8
  const MOREUNITS: nat := 4096
  /** Where the static header base lies: below everything that sbrk returns. */
  const BASE: nat := 1

  // ---------- sizes in 32-bit arithmetic ----------

  function Units(nbytes: nat): nat {
    (nbytes + HEADER - 1) % WRAP / HEADER + 1
  }

  /** sbrk takes a signed int. */
  function SbrkArg(nu: nat): int {
    var n := nu * HEADER % WRAP;
    if n < 0x8000_0000 then n else n - WRAP
  }

  /** The units are the fewest that hold the bytes and their header, except for the last few
      sizes, where the rounding wraps around and one is left ... */
  lemma UnitsHold(nbytes: nat)
    requires nbytes < WRAP
    ensures (Units(nbytes) - 1) * HEADER >= nbytes <==> nbytes <= WRAP - HEADER
    ensures nbytes <= WRAP - HEADER ==> (Units(nbytes) - 1) * HEADER < nbytes + HEADER
    ensures nbytes > WRAP - HEADER ==> Units(nbytes) == 1
  {
  }

  /** ... and sbrk is asked for them exactly when they are fewer than 2^28. */
  lemma SbrkAsked(nbytes: nat)
    requires nbytes < WRAP
    ensures SbrkArg(Units(nbytes)) == Units(nbytes) * HEADER <==> Units(nbytes) < 0x1000_0000
  {
  }

  /** A request whose sbrk would give memory back, and one that asks for too little. */
  lemma HugeRequests()
    ensures SbrkArg(Units(0x8000_0000)) < 0
    ensures Units(0xFFFF_FFFF) == 1
  {
  }

  /** morecore asks for this many units. */
  function Most(nu: nat): (n: nat)
    ensures n >= 4096 && n >= nu && (n == 4096 || n == nu)
  {
    if nu < MOREUNITS then MOREUNITS else nu
  }

  // ---------- the free list ----------

  type Heads = map<nat, nat>

  function Next(i: nat, n: nat): nat
    requires i < n
  {
    if i + 1 < n then i + 1 else 0
  }

  /** list is the cycle from base: in address order, and no block touches the next. */
  ghost predicate Ordered(size: Heads, list: seq<nat>) {
    && |list| > 0 && list[0] == BASE
    && (forall i :: 0 <= i < |list| ==> list[i] in size)
    && size[BASE] == 0
    && (forall i :: 0 < i < |list| ==> size[list[i]] > 0)
    && (forall i, j :: 0 <= i < j < |list| ==> list[i] + size[list[i]] < list[j])
  }

  ghost predicate Rising(list: seq<nat>) {
    forall i, j :: 0 <= i < j < |list| ==> list[i] < list[j]
  }

  ghost predicate Linked(ptr: Heads, list: seq<nat>) {
    forall i: nat :: i < |list| ==> LinkAt(ptr, list, i)
  }

  ghost predicate LinkAt(ptr: Heads, list: seq<nat>, i: nat)
    requires i < |list|
  {
    list[i] in ptr && ptr[list[i]] == list[Next(i, |list|)]
  }

  /** A block: free or live, not base. */
  ghost predicate IsBlock(list: seq<nat>, live: set<nat>, b: nat) {
    b in live || (b != BASE && b in list)
  }

  /** Every unit that sbrk gave is in exactly one block. */
  ghost predicate Tiled(size: Heads, list: seq<nat>, live: set<nat>, cells: Heads) {
    && (forall b :: b in live ==> b > BASE && b !in list && b in size && size[b] > 0)
    && (forall u :: u in cells ==> IsBlock(list, live, cells[u]) && Inside(size, cells[u], u))
    && (forall b, u: nat :: IsBlock(list, live, b) && Inside(size, b, u) ==> u in cells && cells[u] == b)
  }

  ghost predicate Inside(size: Heads, b: nat, u: nat) {
    b in size && b <= u < b + size[b]
  }

  /** Two blocks share no unit. */
  lemma Disjoint(size: Heads, list: seq<nat>, live: set<nat>, cells: Heads, a: nat, b: nat)
    requires Ordered(size, list) && Tiled(size, list, live, cells)
    requires IsBlock(list, live, a) && IsBlock(list, live, b) && a < b
    ensures a in size && b in size && a + size[a] <= b
  {
    assert Inside(size, b, b);
    assert a + size[a] > b ==> Inside(size, a, b);
  }

  // ---------- free, on the list ----------

  /** The place for bp: after the t-th block and before the next. */
  ghost predicate Place(list: seq<nat>, bp: nat, t: nat) {
    t < |list| && list[t] < bp && (t + 1 < |list| ==> bp < list[t + 1])
  }

  /** The units of block b become part of block a. */
  function Merge(cells: Heads, a: nat, b: nat): Heads {
    map u | u in cells :: if cells[u] == b then a else cells[u]
  }

  /** bp takes the block after it into itself. */
  lemma MergeUp(size: Heads, list: seq<nat>, live: set<nat>, cells: Heads, bp: nat, t: nat)
    requires Ordered(size, list) && Tiled(size, list, live, cells) && bp in live && Place(list, bp, t)
    requires t + 1 < |list| && bp + size[bp] == list[t + 1]
    ensures var size', list' := size[bp := size[bp] + size[list[t + 1]]], list[..t + 1] + list[t + 2..];
            && Ordered(size', list') && Tiled(size', list', live, Merge(cells, bp, list[t + 1]))
            && Place(list', bp, t) && (t + 1 < |list'| ==> bp + size'[bp] < list'[t + 1])
  {
    var next := list[t + 1];
    var size', list' := size[bp := size[bp] + size[next]], list[..t + 1] + list[t + 2..];
    assert next > BASE && IsBlock(list, live, next);
    assert Rising(list);
    forall b ensures b in list' <==> b in list && b != next { OneOut(list, t + 1, b); }
    MergeUpOrdered(size, list, bp, t);
    assert forall b :: IsBlock(list', live, b) <==> IsBlock(list, live, b) && b != next;
    hide Ordered, IsBlock, Inside, Merge;
    Merged(size, list, live, cells, bp, next, size', list', live);
  }

  lemma MergeUpOrdered(size: Heads, list: seq<nat>, bp: nat, t: nat)
    requires Ordered(size, list) && Place(list, bp, t) && bp !in list && bp in size && size[bp] > 0
    requires t + 1 < |list| && bp + size[bp] == list[t + 1]
    ensures var size', list' := size[bp := size[bp] + size[list[t + 1]]], list[..t + 1] + list[t + 2..];
            Ordered(size', list') && Place(list', bp, t) && (t + 1 < |list'| ==> bp + size'[bp] < list'[t + 1])
  {
    var size', list' := size[bp := size[bp] + size[list[t + 1]]], list[..t + 1] + list[t + 2..];
    forall i | 0 <= i < |list'|
      ensures list'[i] == list[if i <= t then i else i + 1] && list'[i] in size && list'[i] != bp
    {
      assert list'[i] in list;
    }
    forall i, j | 0 <= i < j < |list'| ensures list'[i] + size'[list'[i]] < list'[j] {
      var k, l := if i <= t then i else i + 1, if j <= t then j else j + 1;
      assert list[k] + size[list[k]] < list[l];
    }
    assert t + 2 < |list| ==> list[t + 1] + size[list[t + 1]] < list[t + 2];
  }

  lemma OneOut(list: seq<nat>, i: nat, b: nat)
    requires i < |list| && Rising(list)
    ensures b in list[..i] + list[i + 1..] <==> b in list && b != list[i]
  {
    var rest := list[..i] + list[i + 1..];
    if b in list && b != list[i] {
      var j :| 0 <= j < |list| && list[j] == b;
      assert rest[if j < i then j else j - 1] == b;
    }
  }

  /** Block next is gone, and its units are a's. */
  lemma Merged(size: Heads, list: seq<nat>, live: set<nat>, cells: Heads, a: nat, next: nat,
               size': Heads, list': seq<nat>, live': set<nat>)
    requires Ordered(size, list) && Tiled(size, list, live, cells) && |list'| > 0
    requires IsBlock(list, live, a) && IsBlock(list, live, next) && a != next
    requires a in size && next in size && a + size[a] == next && size' == size[a := size[a] + size[next]]
    requires forall b :: IsBlock(list', live', b) <==> IsBlock(list, live, b) && b != next
    requires forall b :: b in live' ==> b in live && b !in list'
    ensures Tiled(size', list', live', Merge(cells, a, next))
  {
    forall b, u: nat | IsBlock(list', live', b) && Inside(size', b, u)
      ensures u in cells && Merge(cells, a, next)[u] == b
    {
      assert if b == a then Inside(size, a, u) || Inside(size, next, u) else Inside(size, b, u);
    }
    forall u | u in cells ensures Inside(size', Merge(cells, a, next)[u], u) {
      assert Inside(size, cells[u], u);
    }
  }

  /** bp becomes a free block of its own. */
  lemma Insert(size: Heads, list: seq<nat>, live: set<nat>, cells: Heads, bp: nat, t: nat)
    requires Ordered(size, list) && Tiled(size, list, live, cells) && bp in live && Place(list, bp, t)
    requires t + 1 < |list| ==> bp + size[bp] < list[t + 1]
    requires list[t] + size[list[t]] != bp
    ensures var list' := list[..t + 1] + [bp] + list[t + 1..];
            Ordered(size, list') && Tiled(size, list', live - {bp}, cells)
  {
    var list' := list[..t + 1] + [bp] + list[t + 1..];
    if t > 0 {
      assert IsBlock(list, live, list[t]);
      Disjoint(size, list, live, cells, list[t], bp);
    }
    InsertOrdered(size, list, bp, t);
    forall b ensures b in list' <==> b in list || b == bp { }
    assert forall b :: IsBlock(list', live - {bp}, b) <==> IsBlock(list, live, b);
    hide Ordered;
  }

  lemma InsertOrdered(size: Heads, list: seq<nat>, bp: nat, t: nat)
    requires Ordered(size, list) && Place(list, bp, t) && bp in size && size[bp] > 0
    requires t + 1 < |list| ==> bp + size[bp] < list[t + 1]
    requires list[t] + size[list[t]] < bp
    ensures Ordered(size, list[..t + 1] + [bp] + list[t + 1..])
  {
    var list' := list[..t + 1] + [bp] + list[t + 1..];
    assert t + 1 < |list| ==> list[t] + size[list[t]] < list[t + 1];
    forall i | 0 <= i < |list'|
      ensures list'[i] == (if i <= t then list[i] else if i == t + 1 then bp else list[i - 1])
      ensures list'[i] in size && (i > 0 ==> size[list'[i]] > 0)
    {
    }
    forall i, j | 0 <= i < j < |list'| ensures list'[i] + size[list'[i]] < list'[j] {
      if i <= t < j {
        assert list[i] + size[list[i]] <= list[t] + size[list[t]] < bp;
        assert j > t + 1 ==> list[t + 1] <= list[j - 1];
      } else if i <= t {
        assert list[i] + size[list[i]] < list[j];
      } else if i == t + 1 {
        assert list[t + 1] <= list[j - 1];
      } else {
        assert list[i - 1] + size[list[i - 1]] < list[j - 1];
      }
    }
  }

  /** The block before bp takes bp into itself. */
  lemma MergeDown(size: Heads, list: seq<nat>, live: set<nat>, cells: Heads, bp: nat, t: nat)
    requires Ordered(size, list) && Tiled(size, list, live, cells) && bp in live && Place(list, bp, t)
    requires t + 1 < |list| ==> bp + size[bp] < list[t + 1]
    requires list[t] + size[list[t]] == bp
    ensures var size' := size[list[t] := size[list[t]] + size[bp]];
            Ordered(size', list) && Tiled(size', list, live - {bp}, Merge(cells, list[t], bp))
  {
    var size' := size[list[t] := size[list[t]] + size[bp]];
    assert t > 0 && IsBlock(list, live, list[t]) && IsBlock(list, live, bp);
    forall i, j | 0 <= i < j < |list| ensures list[i] + size'[list[i]] < list[j] {
      assert j > t ==> t + 1 < |list| && list[t + 1] <= list[j];
    }
    assert Ordered(size', list);
    Merged(size, list, live, cells, list[t], bp, size', list, live - {bp});
  }

  // ---------- the search in free ----------

  /** Steps round a cycle of n from i to t. */
  function Steps(i: nat, t: nat, n: nat): nat
    requires i < n && t < n
  {
    if i <= t then t - i else t + n - i
  }

  lemma FindPlace(list: seq<nat>, bp: nat) returns (t: nat)
    requires |list| > 0 && list[0] < bp && bp !in list
    requires Rising(list)
    ensures Place(list, bp, t)
  {
    t := 0;
    while t + 1 < |list| && list[t + 1] < bp
      invariant t < |list| && list[t] < bp
    {
      t := t + 1;
    }
  }

  lemma LastBelow(list: seq<nat>, bp: nat, t: nat)
    requires Rising(list) && Place(list, bp, t)
    ensures list[t] in list && list[t] < bp && forall b :: b in list && b < bp ==> b <= list[t]
  {
  }

  // ---------- the links, after free ----------

  lemma Apart(list: seq<nat>, i: nat, j: nat)
    requires Rising(list) && i < |list| && j < |list| && i != j
    ensures list[i] != list[j]
  {
  }

  lemma LinkedInsert(ptr: Heads, list: seq<nat>, bp: nat, t: nat)
    requires Linked(ptr, list) && t < |list| && bp !in list && Rising(list)
    ensures Linked(ptr[bp := list[Next(t, |list|)]][list[t] := bp], list[..t + 1] + [bp] + list[t + 1..])
  {
    var list', ptr' := list[..t + 1] + [bp] + list[t + 1..], ptr[bp := list[Next(t, |list|)]][list[t] := bp];
    forall i: nat | i < |list'| ensures LinkAt(ptr', list', i) {
      if i != t + 1 {
        var k := if i <= t then i else i - 1;
        assert list'[i] == list[k] && list[k] in list && LinkAt(ptr, list, k);
        if k != t { Apart(list, k, t); }
        hide Rising;
      }
    }
  }

  lemma LinkedOut(ptr: Heads, list: seq<nat>, t: nat)
    requires Linked(ptr, list) && t + 1 < |list| && Rising(list)
    ensures Linked(ptr[list[t] := list[Next(t + 1, |list|)]], list[..t + 1] + list[t + 2..])
  {
    var list', ptr' := list[..t + 1] + list[t + 2..], ptr[list[t] := list[Next(t + 1, |list|)]];
    forall i: nat | i < |list'| ensures LinkAt(ptr', list', i) {
      var k := if i <= t then i else i + 1;
      assert list'[i] == list[k] && LinkAt(ptr, list, k);
      if k != t { Apart(list, k, t); }
      hide Rising;
    }
  }

  lemma LinkedFrame(ptr: Heads, ptr': Heads, list: seq<nat>)
    requires Linked(ptr, list) && forall b :: b in list && b in ptr ==> b in ptr' && ptr'[b] == ptr[b]
    ensures Linked(ptr', list)
  {
    forall i: nat | i < |list| ensures LinkAt(ptr', list, i) {
      assert LinkAt(ptr, list, i) && list[i] in list;
    }
  }

  /** Around the place for bp. */
  lemma FreeFacts(size: Heads, ptr: Heads, list: seq<nat>, live: set<nat>, cells: Heads, bp: nat, t: nat)
    requires Ordered(size, list) && Linked(ptr, list) && Tiled(size, list, live, cells)
    requires bp in live && Place(list, bp, t)
    ensures bp in size && size[bp] > 0 && bp > BASE && bp !in list && Rising(list)
    ensures list[t] in size && list[t] in ptr && ptr[list[t]] == list[Next(t, |list|)]
    ensures t + 1 < |list| ==>
              list[t + 1] in size && list[t + 1] in ptr && ptr[list[t + 1]] == list[Next(t + 1, |list|)]
                && bp + size[bp] <= list[t + 1]
    ensures bp + size[bp] != BASE && list[0] == BASE
  {
    assert LinkAt(ptr, list, t);
    assert t + 1 < |list| ==> LinkAt(ptr, list, t + 1);
    if t + 1 < |list| {
      assert IsBlock(list, live, list[t + 1]) && list[0] < list[t + 1];
      Disjoint(size, list, live, cells, bp, list[t + 1]);
    }
  }

  /** Half-way through free: bp has merged with what follows it, if they touched, and
      points on; the list does not have bp yet. */
  ghost predicate Half(size: Heads, ptr: Heads, list: seq<nat>, live: set<nat>, cells: Heads, bp: nat, t: nat) {
    && Ordered(size, list) && Tiled(size, list, live, cells) && bp in live && Place(list, bp, t)
    && bp in size && list[t] in size && bp !in list
    && (t + 1 < |list| ==> bp + size[bp] < list[t + 1])
    && bp in ptr && ptr[bp] == list[Next(t, |list|)]
    && Linked(ptr[list[t] := ptr[bp]], list)
  }

  lemma HalfMerged(size: Heads, ptr: Heads, list: seq<nat>, live: set<nat>, cells: Heads, bp: nat, t: nat)
    requires Ordered(size, list) && Linked(ptr, list) && Tiled(size, list, live, cells)
    requires bp in live && Place(list, bp, t) && bp in size && t + 1 < |list| && bp + size[bp] == list[t + 1]
    requires list[t + 1] in size && list[t + 1] in ptr
    ensures Half(size[bp := size[bp] + size[list[t + 1]]], ptr[bp := ptr[list[t + 1]]],
                 list[..t + 1] + list[t + 2..], live, Merge(cells, bp, list[t + 1]), bp, t)
  {
    var list' := list[..t + 1] + list[t + 2..];
    FreeFacts(size, ptr, list, live, cells, bp, t);
    MergeUp(size, list, live, cells, bp, t);
    LinkedOut(ptr, list, t);
    hide Ordered, Tiled, Merge, Linked;
    var on: Heads := ptr[bp := ptr[list[t + 1]]];
    LinkedFrame(ptr[list[t] := list[Next(t + 1, |list|)]], on[list[t] := on[bp]], list');
  }

  lemma HalfApart(size: Heads, ptr: Heads, list: seq<nat>, live: set<nat>, cells: Heads, bp: nat, t: nat)
    requires Ordered(size, list) && Linked(ptr, list) && Tiled(size, list, live, cells)
    requires bp in live && Place(list, bp, t) && bp in size && list[t] in ptr && bp + size[bp] != ptr[list[t]]
    ensures Half(size, ptr[bp := ptr[list[t]]], list, live, cells, bp, t)
  {
    FreeFacts(size, ptr, list, live, cells, bp, t);
    hide Ordered, Tiled, Linked;
    var on: Heads := ptr[bp := ptr[list[t]]];
    LinkedFrame(ptr, on[list[t] := on[bp]], list);
  }

  lemma AboveBase(size: Heads, list: seq<nat>, b: nat)
    requires Ordered(size, list) && b in list
    ensures b >= BASE && (b != BASE ==> b in size && size[b] > 0)
  {
    var i: nat :| i < |list| && list[i] == b;
    assert i > 0 ==> list[0] < list[i];
  }

  lemma WholeMerged(size: Heads, ptr: Heads, list: seq<nat>, live: set<nat>, cells: Heads, bp: nat, t: nat)
    requires Half(size, ptr, list, live, cells, bp, t) && list[t] + size[list[t]] == bp
    ensures Ordered(size[list[t] := size[list[t]] + size[bp]], list) && Linked(ptr[list[t] := ptr[bp]], list)
    ensures Tiled(size[list[t] := size[list[t]] + size[bp]], list, live - {bp}, Merge(cells, list[t], bp))
  {
    MergeDown(size, list, live, cells, bp, t);
  }

  lemma WholeApart(size: Heads, ptr: Heads, list: seq<nat>, live: set<nat>, cells: Heads, bp: nat, t: nat)
    requires Half(size, ptr, list, live, cells, bp, t) && list[t] + size[list[t]] != bp
    ensures var list' := list[..t + 1] + [bp] + list[t + 1..];
            && Ordered(size, list') && Linked(ptr[list[t] := bp], list') && Tiled(size, list', live - {bp}, cells)
            && list[t] in list'
  {
    Insert(size, list, live, cells, bp, t);
    assert Rising(list);
    var l: Heads := ptr[list[t] := ptr[bp]];
    LinkedInsert(l, list, bp, t);
    var after: Heads := l[bp := list[Next(t, |list|)]];
    assert after[list[t] := bp] == ptr[list[t] := bp];
    var list' := list[..t + 1] + [bp] + list[t + 1..];
    assert list'[t] == list[t];
  }

  // ---------- free, on the heap ----------

  /** Headers as they are in memory, and what they stand for. */
  datatype Heap = Heap(size: Heads, ptr: Heads, list: seq<nat>, live: set<nat>, cells: Heads)

  ghost predicate HeapInv(h: Heap) {
    Ordered(h.size, h.list) && Linked(h.ptr, h.list) && Tiled(h.size, h.list, h.live, h.cells)
  }

  ghost predicate HalfFree(h: Heap, bp: nat, t: nat) {
    Half(h.size, h.ptr, h.list, h.live, h.cells, bp, t)
  }

  /** All that the live blocks other than bp can see is as it was. */
  ghost predicate Undisturbed(h: Heap, k: Heap, bp: nat) {
    && k.live - {bp} == h.live - {bp} && k.cells.Keys == h.cells.Keys
    && forall b :: b in h.live && b != bp ==> b in h.size && b in k.size && k.size[b] == h.size[b]
  }

  lemma UndisturbedBoth(h: Heap, k: Heap, l: Heap, bp: nat)
    requires Undisturbed(h, k, bp) && Undisturbed(k, l, bp)
    ensures Undisturbed(h, l, bp)
  {
    forall b | b in h.live && b != bp ensures b in k.live && b in l.live {
      assert b in h.live - {bp} && b in k.live - {bp};
    }
  }

  ghost function JoinedNext(h: Heap, bp: nat, t: nat): Heap
    requires t < |h.list| && bp in h.size && h.list[t] in h.ptr && h.ptr[h.list[t]] in h.size
             && h.ptr[h.list[t]] in h.ptr
  {
    var next := h.ptr[h.list[t]];
    if bp + h.size[bp] == next then
      Heap(h.size[bp := h.size[bp] + h.size[next]], h.ptr[bp := h.ptr[next]],
           if t + 2 <= |h.list| then h.list[..t + 1] + h.list[t + 2..] else h.list, h.live, Merge(h.cells, bp, next))
    else
      h.(ptr := h.ptr[bp := next])
  }

  lemma JoinedNextIsHalf(h: Heap, bp: nat, t: nat)
    requires HeapInv(h) && bp in h.live && Place(h.list, bp, t)
    ensures bp in h.size && h.list[t] in h.ptr && h.ptr[h.list[t]] in h.size && h.ptr[h.list[t]] in h.ptr
    ensures HalfFree(JoinedNext(h, bp, t), bp, t)
    ensures bp + h.size[bp] == h.ptr[h.list[t]] ==> t + 1 < |h.list|
  {
    FreeFacts(h.size, h.ptr, h.list, h.live, h.cells, bp, t);
    assert LinkAt(h.ptr, h.list, Next(t, |h.list|));
    assert h.list[Next(t, |h.list|)] in h.size;
    hide HalfFree, JoinedNext;
    if bp + h.size[bp] == h.ptr[h.list[t]] {
      TouchingIsHalf(h, bp, t);
    } else {
      NotTouchingIsHalf(h, bp, t);
    }
  }

  lemma TouchingIsHalf(h: Heap, bp: nat, t: nat)
    requires HeapInv(h) && bp in h.live && Place(h.list, bp, t) && t + 1 < |h.list|
             && h.ptr.Keys >= {h.list[t], h.list[t + 1]}
    requires bp in h.size && h.list[t + 1] in h.size && h.ptr[h.list[t]] == h.list[t + 1] == bp + h.size[bp]
    ensures HalfFree(JoinedNext(h, bp, t), bp, t)
  {
    hide Ordered, Linked, Tiled, Half, Merge;
    HalfMerged(h.size, h.ptr, h.list, h.live, h.cells, bp, t);
  }

  lemma NotTouchingIsHalf(h: Heap, bp: nat, t: nat)
    requires HeapInv(h) && bp in h.live && Place(h.list, bp, t) && h.list[t] in h.ptr
    requires bp in h.size && h.ptr[h.list[t]] in h.size && h.ptr[h.list[t]] in h.ptr
             && bp + h.size[bp] != h.ptr[h.list[t]]
    ensures HalfFree(JoinedNext(h, bp, t), bp, t)
  {
    hide Ordered, Linked, Tiled, Half, Merge;
    HalfApart(h.size, h.ptr, h.list, h.live, h.cells, bp, t);
  }

  lemma JoinedNextSame(h: Heap, bp: nat, t: nat)
    requires HeapInv(h) && bp in h.live && Place(h.list, bp, t)
    requires bp in h.size && h.list[t] in h.ptr && h.ptr[h.list[t]] in h.size && h.ptr[h.list[t]] in h.ptr
    ensures Undisturbed(h, JoinedNext(h, bp, t), bp)
    ensures t < |JoinedNext(h, bp, t).list| && JoinedNext(h, bp, t).list[t] == h.list[t]
    ensures JoinedNext(h, bp, t).live == h.live && JoinedNext(h, bp, t).size[bp] >= h.size[bp]
  {
    hide Ordered, Linked;
  }

  ghost function JoinedBefore(h: Heap, bp: nat, t: nat): Heap
    requires t < |h.list| && bp in h.size && h.list[t] in h.size && bp in h.ptr
  {
    var p := h.list[t];
    if p + h.size[p] == bp then
      Heap(h.size[p := h.size[p] + h.size[bp]], h.ptr[p := h.ptr[bp]], h.list, h.live - {bp}, Merge(h.cells, p, bp))
    else
      Heap(h.size, h.ptr[p := bp], h.list[..t + 1] + [bp] + h.list[t + 1..], h.live - {bp}, h.cells)
  }

  /** Some free block has at least n units. */
  ghost predicate Absorbed(h: Heap, n: nat) {
    exists b :: b in h.list && b in h.size && h.size[b] >= n
  }

  lemma InListAbsorbed(h: Heap, i: nat, n: nat)
    requires i < |h.list| && h.list[i] in h.size && h.size[h.list[i]] >= n
    ensures Absorbed(h, n)
  {
  }

  lemma AbsorbedLess(h: Heap, n: nat, m: nat)
    requires Absorbed(h, n) && m <= n
    ensures Absorbed(h, m)
  {
  }

  lemma JoinedBeforeIsWhole(h: Heap, bp: nat, t: nat)
    requires HalfFree(h, bp, t)
    ensures t < |h.list| && bp in h.size && h.list[t] in h.size && bp in h.ptr
    ensures HeapInv(JoinedBefore(h, bp, t))
  {
    hide Ordered, Linked, Tiled, Merge;
    if h.list[t] + h.size[h.list[t]] == bp {
      WholeMerged(h.size, h.ptr, h.list, h.live, h.cells, bp, t);
    } else {
      WholeApart(h.size, h.ptr, h.list, h.live, h.cells, bp, t);
    }
  }

  lemma JoinedBeforeSame(h: Heap, bp: nat, t: nat)
    requires HalfFree(h, bp, t)
    ensures t < |h.list| && bp in h.size && h.list[t] in h.size && bp in h.ptr
    ensures Undisturbed(h, JoinedBefore(h, bp, t), bp) && h.list[t] >= BASE
  {
    AboveBase(h.size, h.list, h.list[t]);
    hide Ordered, Linked;
    assert h.list[t] in h.list;
  }

  lemma JoinedBeforeAbsorbs(h: Heap, bp: nat, t: nat)
    requires t < |h.list| && bp in h.size && h.list[t] in h.size && bp in h.ptr
    ensures Absorbed(JoinedBefore(h, bp, t), h.size[bp]) && h.list[t] in JoinedBefore(h, bp, t).list
  {
    var k := JoinedBefore(h, bp, t);
    assert k.list[t] == h.list[t];
    if h.list[t] + h.size[h.list[t]] == bp {
      assert k.list[t] in k.list && k.size[h.list[t]] >= h.size[bp];
    } else {
      assert k.list[t + 1] == bp && bp in k.list;
    }
  }

  // ---------- malloc, on the heap ----------

  /** Blocks that only shrink stay in order. */
  lemma OrderedShrunk(size: Heads, size': Heads, list: seq<nat>)
    requires Ordered(size, list) && size'.Keys >= size.Keys && size'[BASE] == 0
    requires forall b :: b in list ==> b in size && b in size' && size'[b] <= size[b] && (size[b] > 0 ==> size'[b] > 0)
    ensures Ordered(size', list)
  {
    forall i, j | 0 <= i < j < |list| ensures list[i] + size'[list[i]] < list[j] {
      assert list[i] in list && list[i] + size[list[i]] < list[j];
    }
    forall i | 0 <= i < |list| ensures list[i] in size' && (i > 0 ==> size'[list[i]] > 0) {
      assert list[i] in list;
    }
  }

  /** sbrk's units as one live block. */
  ghost function Extended(h: Heap, at: nat, n: nat): Heap {
    Heap(h.size[at := n], h.ptr, h.list, h.live + {at}, map u | u in h.cells.Keys + Range(at, at + n) ::
        if u in h.cells then h.cells[u] else at)
  }

  lemma ExtendedKeeps(h: Heap, at: nat, n: nat)
    requires HeapInv(h) && at > BASE && n > 0 && forall u :: u in h.cells ==> u < at
    ensures HeapInv(Extended(h, at, n)) && at !in h.live && at !in h.list
    ensures forall b :: b in h.live ==> b in h.size && Extended(h, at, n).size[b] == h.size[b]
  {
    var k := Extended(h, at, n);
    forall b | b in h.list || b in h.live ensures b != at && b in h.size {
      if b in h.list { AboveBase(h.size, h.list, b); }
      assert b != BASE ==> IsBlock(h.list, h.live, b) && Inside(h.size, b, b);
    }
    assert BASE in h.list by { assert h.list[0] == BASE; }
    OrderedShrunk(h.size, k.size, h.list);
    hide Ordered, Linked;
    ExtendedTiled(h, at, n);
  }

  lemma ExtendedTiled(h: Heap, at: nat, n: nat)
    requires Tiled(h.size, h.list, h.live, h.cells) && at > BASE && n > 0 && forall u :: u in h.cells ==> u < at
    requires at !in h.live && at !in h.list
    ensures var k := Extended(h, at, n); Tiled(k.size, k.list, k.live, k.cells)
  {
    RangeIs(at, at + n);
    var k := Extended(h, at, n);
    forall b, u: nat | IsBlock(k.list, k.live, b) && Inside(k.size, b, u) ensures u in k.cells && k.cells[u] == b {
      assert b != at ==> Inside(h.size, b, u);
    }
    forall u | u in k.cells ensures IsBlock(k.list, k.live, k.cells[u]) && Inside(k.size, k.cells[u], u) {
      assert u in h.cells ==> Inside(h.size, h.cells[u], u);
    }
  }

  /** The i-th free block leaves the list whole. */
  ghost function TakenWhole(h: Heap, i: nat): Heap
    requires 0 < i < |h.list| && h.list[i] in h.ptr
  {
    Heap(h.size, h.ptr[h.list[i - 1] := h.ptr[h.list[i]]], h.list[..i] + h.list[i + 1..], h.live + {h.list[i]}, h.cells)
  }

  lemma TakenWholeKeeps(h: Heap, i: nat)
    requires HeapInv(h) && 0 < i < |h.list|
    ensures h.list[i] in h.ptr && h.list[i] in h.size && h.list[i] !in h.live
    ensures HeapInv(TakenWhole(h, i)) && h.list[i - 1] in TakenWhole(h, i).list && h.list[i - 1] >= BASE
  {
    var p := h.list[i];
    assert LinkAt(h.ptr, h.list, i) && p in h.list && Rising(h.list);
    OrderedOut(h.size, h.list, i);
    AboveBase(h.size, h.list, h.list[i - 1]);
    hide Ordered;
    LinkedOut(h.ptr, h.list, i - 1);
    var t := TakenWhole(h, i);
    assert t.list[i - 1] == h.list[i - 1];
    hide Linked;
    forall b ensures b in t.list <==> b in h.list && b != p { OneOut(h.list, i, b); }
    TakenWholeTiled(h, i);
  }

  lemma TakenWholeTiled(h: Heap, i: nat)
    requires Tiled(h.size, h.list, h.live, h.cells) && 0 < i < |h.list| && h.list[i] in h.ptr
    requires h.list[i] > BASE && h.list[i] in h.size && h.size[h.list[i]] > 0
    requires forall b :: b in TakenWhole(h, i).list <==> b in h.list && b != h.list[i]
    ensures var t := TakenWhole(h, i); Tiled(t.size, t.list, t.live, t.cells)
  {
    var t := TakenWhole(h, i);
    assert h.list[i] in h.list;
    assert forall b :: IsBlock(t.list, t.live, b) <==> IsBlock(h.list, h.live, b);
    hide Inside;
  }

  lemma OrderedOut(size: Heads, list: seq<nat>, i: nat)
    requires Ordered(size, list) && 0 < i < |list|
    ensures Ordered(size, list[..i] + list[i + 1..]) && list[i] > BASE && list[i] in size && size[list[i]] > 0
  {
  }

  /** The last n units of block p become a live block. */
  ghost function TakenTail(h: Heap, p: nat, n: nat): Heap
    requires p in h.size && n < h.size[p]
  {
    var q := p + h.size[p] - n;
    Heap(h.size[p := h.size[p] - n][q := n], h.ptr, h.list, h.live + {q},
         map u | u in h.cells :: if h.cells[u] == p && u >= q then q else h.cells[u])
  }

  lemma TailOrdered(h: Heap, i: nat, n: nat)
    requires Ordered(h.size, h.list) && 0 < i < |h.list| && h.list[i] in h.size && 0 < n < h.size[h.list[i]]
    requires h.list[i] + h.size[h.list[i]] - n !in h.list
    ensures Ordered(TakenTail(h, h.list[i], n).size, h.list)
  {
    var p := h.list[i];
    assert h.list[0] < p && h.list[0] in h.list;
    forall b | b in h.list ensures b in h.size {
      AboveBase(h.size, h.list, b);
    }
    OrderedShrunk(h.size, TakenTail(h, p, n).size, h.list);
  }

  lemma TakenTailKeeps(h: Heap, i: nat, n: nat)
    requires HeapInv(h) && 0 < i < |h.list| && h.list[i] in h.size && 0 < n < h.size[h.list[i]]
    ensures var p := h.list[i]; var q := p + h.size[p] - n;
            HeapInv(TakenTail(h, p, n)) && q !in h.live && q !in h.list && q > p >= BASE
  {
    var p := h.list[i];
    var q := p + h.size[p] - n;
    OrderedOut(h.size, h.list, i);
    assert p in h.list;
    TailNoBlock(h, p, q);
    TailOrdered(h, i, n);
    hide Ordered, Linked;
    TailTiled(h, p, n);
  }

  /** No block starts inside another. */
  lemma TailNoBlock(h: Heap, p: nat, q: nat)
    requires HeapInv(h) && p in h.list && p > BASE && p in h.size && p < q < p + h.size[p]
    ensures q !in h.live && q !in h.list && q != BASE
  {
    assert IsBlock(h.list, h.live, p) && Inside(h.size, p, q);
    if q in h.list { AboveBase(h.size, h.list, q); }
    hide Ordered, Linked;
    assert IsBlock(h.list, h.live, q) ==> Inside(h.size, q, q);
  }

  lemma TailTiled(h: Heap, p: nat, n: nat)
    requires Tiled(h.size, h.list, h.live, h.cells) && p in h.size && 0 < n < h.size[p] && p in h.list && p > BASE
    requires var q := p + h.size[p] - n; q !in h.live && q !in h.list
    ensures var t := TakenTail(h, p, n); Tiled(t.size, t.list, t.live, t.cells)
  {
    var t, q := TakenTail(h, p, n), p + h.size[p] - n;
    assert IsBlock(h.list, h.live, p);
    forall b, u: nat | IsBlock(t.list, t.live, b) && Inside(t.size, b, u) ensures u in t.cells && t.cells[u] == b {
      assert if b == q then Inside(h.size, p, u) else Inside(h.size, b, u);
    }
    forall u | u in t.cells ensures IsBlock(t.list, t.live, t.cells[u]) && Inside(t.size, t.cells[u], u) {
      assert Inside(h.size, h.cells[u], u);
    }
  }

  lemma LiveInSize(h: Heap)
    requires HeapInv(h)
    ensures forall b :: b in h.live ==> b in h.size && b > BASE && b !in h.list
  {
  }

  lemma FindIndex(list: seq<nat>, b: nat) returns (i: nat)
    requires b in list
    ensures i < |list| && list[i] == b
  {
    i :| i < |list| && list[i] == b;
  }

  lemma NextLinked(h: Heap, i: nat)
    requires HeapInv(h) && i < |h.list|
    ensures h.list[i] in h.ptr && h.ptr[h.list[i]] == h.list[Next(i, |h.list|)]
    ensures h.list[i] in h.size && (h.size[h.list[i]] > 0 ==> i > 0)
  {
    assert LinkAt(h.ptr, h.list, i);
  }

  lemma InList(h: Heap, i: nat)
    requires HeapInv(h) && 0 < i < |h.list|
    ensures h.list[i] in h.list && h.list[i] !in h.live && h.list[i - 1] in h.list && h.list[i - 1] >= BASE
  {
    AboveBase(h.size, h.list, h.list[i - 1]);
  }

  /** The heap that malloc starts with: base alone, linked to itself. */
  lemma BaseAlone(size: Heads, ptr: Heads)
    ensures HeapInv(Heap(size[BASE := 0], ptr[BASE := BASE], [BASE], {}, map[]))
  {
    assert LinkAt(ptr[BASE := BASE], [BASE], 0);
  }

  /** The live blocks of h are live in k, at the same size. */
  ghost predicate Kept(h: Heap, k: Heap) {
    h.live <= k.live && forall b :: b in h.live ==> b in h.size && b in k.size && k.size[b] == h.size[b]
  }

  lemma KeptBoth(h: Heap, k: Heap, l: Heap)
    requires Kept(h, k) && Kept(k, l)
    ensures Kept(h, l)
  {
  }

  lemma KeptSelf(h: Heap)
    requires HeapInv(h) || h.live == {}
    ensures Kept(h, h)
  {
  }

  lemma NothingKept(h: Heap, size: Heads, ptr: Heads)
    requires h.live == {}
    ensures Kept(h, Heap(size, ptr, [BASE], {}, map[]))
  {
  }

  lemma TailKept(h: Heap, i: nat, n: nat)
    requires HeapInv(h) && 0 < i < |h.list| && h.list[i] in h.size && 0 < n < h.size[h.list[i]]
    ensures Kept(h, TakenTail(h, h.list[i], n)) && TakenTail(h, h.list[i], n).cells.Keys == h.cells.Keys
  {
    LiveInSize(h);
    InList(h, i);
    TakenTailKeeps(h, i, n);
    hide HeapInv;
  }

  lemma SamePlace(h: Heap, i: nat, f: nat)
    requires HeapInv(h) && i < |h.list| && f < |h.list| && h.list[i] == h.list[f]
    ensures i == f
  {
  }

  // ---------- conservation ----------

  function Total(size: Heads, q: seq<nat>): nat {
    if q == [] then 0
    else Total(size, q[..|q| - 1]) + if q[|q| - 1] in size then size[q[|q| - 1]] else 0
  }

  ghost function UnitsIn(cells: Heads, q: seq<nat>): set<nat> {
    set u | u in cells && cells[u] in q
  }

  lemma LastApart(q: seq<nat>)
    requires Distinct(q) && q != []
    ensures var front, b := q[..|q| - 1], q[|q| - 1];
            Distinct(front) && b in q && b !in front && forall x :: x in q <==> x in front || x == b
  {
  }

  lemma UnitsOfLast(cells: Heads, q: seq<nat>, front: seq<nat>, b: nat, r: set<nat>)
    requires b !in front && forall x :: x in q <==> x in front || x == b
    requires forall u: nat :: u in r <==> u in cells && cells[u] == b
    ensures |UnitsIn(cells, q)| == |UnitsIn(cells, front)| + |r|
  {
    assert UnitsIn(cells, q) == UnitsIn(cells, front) + r;
    assert UnitsIn(cells, front) !! r;
  }

  lemma {:induction false} TotalIs(h: Heap, q: seq<nat>)
    requires HeapInv(h) && Distinct(q) && forall b :: b in q ==> IsBlock(h.list, h.live, b)
    ensures |UnitsIn(h.cells, q)| == Total(h.size, q)
  {
    if q == [] {
      assert UnitsIn(h.cells, q) == {};
    } else {
      var front, b := q[..|q| - 1], q[|q| - 1];
      LastApart(q);
      assert IsBlock(h.list, h.live, b);
      hide HeapInv, IsBlock, Distinct, UnitsIn;
      TotalIs(h, front);
      BlockUnits(h, b);
      RangeSize(b, b + h.size[b]);
      UnitsOfLast(h.cells, q, front, b, Range(b, b + h.size[b]));
    }
  }

  /** A block's units are the units from its header to its end. */
  lemma BlockUnits(h: Heap, b: nat)
    requires HeapInv(h) && IsBlock(h.list, h.live, b)
    ensures b in h.size
    ensures forall u: nat :: u in Range(b, b + h.size[b]) <==> u in h.cells && h.cells[u] == b
  {
    AboveOrLive(h, b);
    RangeIs(b, b + h.size[b]);
    hide Ordered, Linked;
    forall u: nat ensures u in Range(b, b + h.size[b]) <==> u in h.cells && h.cells[u] == b {
      assert u in h.cells ==> Inside(h.size, h.cells[u], u);
      assert u in Range(b, b + h.size[b]) ==> Inside(h.size, b, u);
    }
  }

  lemma AboveOrLive(h: Heap, b: nat)
    requires HeapInv(h) && IsBlock(h.list, h.live, b)
    ensures b in h.size && h.size[b] > 0
  {
    if b in h.list { AboveBase(h.size, h.list, b); }
  }

  /** The sizes of the free and the live blocks add up to all that sbrk gave. */
  lemma UnitsConserved(h: Heap, q: seq<nat>)
    requires HeapInv(h) && Distinct(q) && forall b :: b in q <==> IsBlock(h.list, h.live, b)
    ensures Total(h.size, q) == |h.cells.Keys|
  {
    TotalIs(h, q);
    assert UnitsIn(h.cells, q) == h.cells.Keys;
  }

  // ---------- the scan in malloc ----------

  /** Going round from the block after freep, every block before the i-th is too small. */
  ghost predicate ScannedSmall(h: Heap, f: nat, i: nat, n: nat) {
    && f < |h.list| && i < |h.list|
    && forall k: nat :: k < |h.list| && Steps(k, f, |h.list|) > Steps(i, f, |h.list|) ==>
         h.list[k] in h.size && h.size[h.list[k]] < n
  }

  /** A block that is big enough lies at the i-th or after it, up to freep. */
  ghost predicate BigAhead(h: Heap, f: nat, i: nat, n: nat) {
    && f < |h.list| && i < |h.list|
    && exists k: nat :: k < |h.list| && Steps(k, f, |h.list|) <= Steps(i, f, |h.list|)
         && h.list[k] in h.size && h.size[h.list[k]] >= n
  }

  lemma ScanStarts(h: Heap, f: nat, n: nat)
    requires f < |h.list|
    ensures ScannedSmall(h, f, Next(f, |h.list|), n)
    ensures Absorbed(h, n) ==> BigAhead(h, f, Next(f, |h.list|), n)
  {
    if Absorbed(h, n) {
      var b :| b in h.list && b in h.size && h.size[b] >= n;
      var k: nat :| k < |h.list| && h.list[k] == b;
      assert Steps(k, f, |h.list|) <= Steps(Next(f, |h.list|), f, |h.list|);
    }
  }

  lemma ScanStep(h: Heap, f: nat, i: nat, n: nat)
    requires f < |h.list| && i < |h.list| && i != f && h.list[i] in h.size && h.size[h.list[i]] < n
    ensures Steps(Next(i, |h.list|), f, |h.list|) == Steps(i, f, |h.list|) - 1
    ensures ScannedSmall(h, f, i, n) ==> ScannedSmall(h, f, Next(i, |h.list|), n)
    ensures BigAhead(h, f, i, n) ==> BigAhead(h, f, Next(i, |h.list|), n)
  {
    forall k: nat | k < |h.list| && Steps(k, f, |h.list|) == Steps(i, f, |h.list|) ensures k == i { }
  }

  lemma ScanEnds(h: Heap, f: nat, n: nat)
    requires f < |h.list| && h.list[f] in h.size && h.size[h.list[f]] < n
    ensures ScannedSmall(h, f, f, n) ==> !Absorbed(h, n)
    ensures !BigAhead(h, f, f, n)
  {
    forall k: nat | k < |h.list| && Steps(k, f, |h.list|) == 0 ensures k == f { }
  }

  /** The list's d-th place after the f-th, round the cycle. */
  function Ahead(h: Heap, f: nat, d: nat): nat
    requires f < |h.list| && d <= |h.list|
  {
    if f + d < |h.list| then h.list[f + d] else h.list[f + d - |h.list|]
  }

  /** First fit: of the blocks after freep, round the cycle, the d-th is the first of n units
      or more. Its last units are block b, and the search goes on from the block before it. */
  ghost predicate FirstFit(h: Heap, freep: nat, n: nat, f: nat, d: nat, b: nat, freep': nat) {
    && f < |h.list| && h.list[f] == freep && 0 < d <= |h.list|
    && (forall e: nat :: 0 < e < d ==> Ahead(h, f, e) in h.size && h.size[Ahead(h, f, e)] < n)
    && Ahead(h, f, d) in h.size && h.size[Ahead(h, f, d)] >= n
    && b == Ahead(h, f, d) + h.size[Ahead(h, f, d)] - n && freep' == Ahead(h, f, d - 1)
  }

  ghost predicate TookFirstFit(h: Heap, freep: nat, n: nat, b: nat, freep': nat) {
    exists f: nat, d: nat :: FirstFit(h, freep, n, f, d, b, freep')
  }

  lemma FitFound(h: Heap, f: nat, j: nat, n: nat)
    requires f < |h.list| && j < |h.list| && ScannedSmall(h, f, Next(j, |h.list|), n)
    requires var p := h.list[Next(j, |h.list|)]; p in h.size && h.size[p] >= n
    ensures var p := h.list[Next(j, |h.list|)];
            TookFirstFit(h, h.list[f], n, p + h.size[p] - n, h.list[j])
  {
    var d := Steps(f, j, |h.list|) + 1;
    assert Ahead(h, f, d) == h.list[Next(j, |h.list|)] && Ahead(h, f, d - 1) == h.list[j];
    forall e: nat | 0 < e < d ensures Ahead(h, f, e) in h.size && h.size[Ahead(h, f, e)] < n {
      var k := if f + e < |h.list| then f + e else f + e - |h.list|;
      assert Steps(k, f, |h.list|) > Steps(Next(j, |h.list|), f, |h.list|);
    }
    var p := h.list[Next(j, |h.list|)];
    assert FirstFit(h, h.list[f], n, f, d, p + h.size[p] - n, h.list[j]);
  }

  class Allocator {
    var size: Heads
    var ptr: Heads
    var freep: nat
    ghost var list: seq<nat>
    ghost var live: set<nat>
    /** Each unit obtained from sbrk, and the block it is in. */
    ghost var cells: Heads
    ghost var top: nat

    ghost predicate Valid()
      reads this
    {
      && BASE < top && (forall u :: u in cells ==> u < top)
      && (freep == 0 ==> list == [] && live == {} && cells == map[])
      && (freep != 0 ==> HeapInv(H()) && freep in list)
    }

    ghost function H(): Heap
      reads this
    {
      Heap(size, ptr, list, live, cells)
    }

    constructor ()
      ensures Valid() && live == {} && cells == map[] && freep == 0
    {
      size, ptr, freep := map[], map[], 0;
      list, live, cells, top := [], {}, map[], BASE + 1;
    }

    /** Puts a live block back, merging it with its neighbours. */
    method Free(ap: nat)
      requires Valid() && freep != 0 && ap > 0 && ap - 1 in live && ap - 1 in size
      modifies this`size, this`ptr, this`freep, this`list, this`live, this`cells
      ensures Valid() && freep != 0 && live == old(live) - {ap - 1}
      ensures cells.Keys == old(cells.Keys)
      ensures forall b :: b in live ==> b in old(size) && b in size && size[b] == old(size)[b]
      ensures Absorbed(H(), old(size)[ap - 1])
    {
      hide HeapInv, HalfFree, JoinedNext, JoinedBefore, Absorbed;
      var bp := ap - 1;
      ghost var t, h0;
      var p;
      p, t := FindBefore(bp);
      h0 := H();
      JoinNext(bp, p, t);
      ghost var h1 := H();
      JoinBefore(bp, p, t);
      UndisturbedBoth(h0, h1, H(), bp);
      AbsorbedLess(H(), h1.size[bp], h0.size[bp]);
      freep := p;
    }

    /** free, first half: bp takes in the block after it if they touch. */
    method JoinNext(bp: nat, p: nat, ghost t: nat)
      requires HeapInv(H()) && bp in live && Place(list, bp, t) && p == list[t]
      modifies this`size, this`ptr, this`list, this`cells
      ensures HalfFree(H(), bp, t) && Undisturbed(old(H()), H(), bp) && t < |list| && p == list[t] && live == old(live)
      ensures bp in old(size) && bp in size && size[bp] >= old(size)[bp]
    {
      hide HeapInv, HalfFree, Undisturbed, Merge, Absorbed;
      ghost var h := H();
      JoinedNextIsHalf(h, bp, t);
      JoinedNextSame(h, bp, t);
      if bp + size[bp] == ptr[p] {
        var next := ptr[p];
        size := size[bp := size[bp] + size[next]];
        ptr := ptr[bp := ptr[next]];
        cells := Merge(cells, bp, next);
        list := list[..t + 1] + list[t + 2..];
      } else {
        ptr := ptr[bp := ptr[p]];
      }
      assert H() == JoinedNext(h, bp, t);
    }

    /** free, second half: the block before bp takes bp in if they touch. */
    method JoinBefore(bp: nat, p: nat, ghost t: nat)
      requires HalfFree(H(), bp, t) && t < |list| && p == list[t] && bp in size
      modifies this`size, this`ptr, this`list, this`cells, this`live
      ensures HeapInv(H()) && Undisturbed(old(H()), H(), bp) && p in list && p >= BASE && live == old(live) - {bp}
      ensures Absorbed(H(), old(size)[bp])
    {
      hide HeapInv, HalfFree, Undisturbed, Merge, Absorbed;
      ghost var h := H();
      JoinedBeforeIsWhole(h, bp, t);
      JoinedBeforeSame(h, bp, t);
      JoinedBeforeAbsorbs(h, bp, t);
      if p + size[p] == bp {
        cells := Merge(cells, p, bp);
        size := size[p := size[p] + size[bp]];
        ptr := ptr[p := ptr[bp]];
      } else {
        ptr := ptr[p := bp];
        list := list[..t + 1] + [bp] + list[t + 1..];
      }
      live := live - {bp};
      assert H() == JoinedBefore(h, bp, t);
    }

    /** free's search: the free block, or base, just before bp. */
    method FindBefore(bp: nat) returns (p: nat, ghost i: nat)
      requires Valid() && freep != 0 && bp in live
      ensures Place(list, bp, i) && p == list[i]
      ensures p in list && p < bp && forall b :: b in list && b < bp ==> b <= p
    {
      assert Rising(list) && list[0] < bp && bp !in list;
      ghost var t := FindPlace(list, bp);
      i :| i < |list| && list[i] == freep;
      p := freep;
      hide Tiled;
      assert LinkAt(ptr, list, i);
      while !(bp > p && bp < ptr[p])
        invariant i < |list| && p == list[i] && LinkAt(ptr, list, i)
        decreases Steps(i, t, |list|)
      {
        assert LinkAt(ptr, list, i);
        if p >= ptr[p] && (bp > p || bp < ptr[p]) { break; }
        assert i != t;
        i := Next(i, |list|);
        p := ptr[p];
      }
      assert LinkAt(ptr, list, i);
      hide HeapInv;
      LastBelow(list, bp, i);
    }

    /** Gets units from sbrk, which returned the address at, or failed (0), and puts
        them on the free list. */
    method Morecore(nu: nat, at: nat) returns (p: nat)
      requires Valid() && freep != 0 && 0 < nu && (at == 0 || at >= top)
      modifies this
      ensures Valid() && freep != 0 && live == old(live)
      ensures p == 0 ==> at == 0 && H() == old(H()) && freep == old(freep) && top == old(top)
      ensures p != 0 ==> at != 0 && p == freep && Absorbed(H(), nu)
                           && cells.Keys == old(cells.Keys) + Range(at, at + Most(nu))
      ensures Kept(old(H()), H())
    {
      hide HeapInv, Absorbed, Range;
      if at == 0 { KeptSelf(H()); return 0; }
      var n := Most(nu);
      var hp := at;
      Grant(hp, n);
      LiveInSize(H());
      Free(hp + 1);
      AbsorbedLess(H(), n, nu);
      assert live == old(live);
      return freep;
    }

    /** sbrk's units, under a header of their own, as a live block. */
    method Grant(hp: nat, n: nat)
      requires Valid() && freep != 0 && hp >= top && n > 0
      modifies this`size, this`live, this`cells, this`top
      ensures Valid() && freep != 0 && hp !in old(live) && live == old(live) + {hp} && hp in size && size[hp] == n
      ensures cells.Keys == old(cells.Keys) + Range(hp, hp + n)
      ensures Kept(old(H()), H())
    {
      ghost var h := H();
      ExtendedKeeps(h, hp, n);
      RangeIs(hp, hp + n);
      hide HeapInv;
      size := size[hp := n];
      live, cells, top := live + {hp}, Extended(h, hp, n).cells, hp + n;
      assert H() == Extended(h, hp, n);
    }

    /** malloc's block p, the i-th, which fits: unlinked. */
    method TakeWhole(prevp: nat, p: nat, ghost i: nat)
      requires Valid() && freep != 0 && 0 < i < |list| && p == list[i] && prevp == list[i - 1]
      modifies this`ptr, this`freep, this`list, this`live
      ensures Valid() && freep == prevp != 0 && p !in old(live) && live == old(live) + {p} && size == old(size)
      ensures Kept(old(H()), H()) && cells == old(cells)
    {
      ghost var h := H();
      NextLinked(h, i);
      LiveInSize(h);
      TakenWholeKeeps(h, i);
      hide HeapInv;
      ptr := ptr[prevp := ptr[p]];
      list, live := list[..i] + list[i + 1..], live + {p};
      assert H() == TakenWhole(h, i);
      freep := prevp;
    }

    /** malloc's block p, the i-th, which is bigger: its last units are taken. */
    method TakeTail(prevp: nat, p: nat, nunits: nat, ghost i: nat) returns (b: nat)
      requires Valid() && freep != 0 && 0 < i < |list| && p == list[i] && prevp == list[i - 1]
      requires p in size && 0 < nunits < size[p]
      modifies this`size, this`freep, this`live, this`cells
      ensures Valid() && freep == prevp != 0 && b !in old(live) && live == old(live) + {b}
      ensures b in size && size[b] == nunits && b == p + old(size[p]) - nunits
      ensures cells.Keys == old(cells.Keys)
      ensures Kept(old(H()), H())
    {
      ghost var h := H();
      TakenTailKeeps(h, i, nunits);
      InList(h, i);
      TailKept(h, i, nunits);
      hide HeapInv, Kept;
      cells := TakenTail(h, p, nunits).cells;
      size := size[p := size[p] - nunits];
      b := p + size[p];
      size := size[b := nunits];
      live := live + {b};
      assert H() == TakenTail(h, p, nunits);
      freep := prevp;
    }

    method Take(prevp: nat, p: nat, nunits: nat, ghost i: nat) returns (b: nat)
      requires Valid() && freep != 0 && 0 < i < |list| && p == list[i] && prevp == list[i - 1]
      requires p in size && 0 < nunits <= size[p]
      modifies this`size, this`ptr, this`freep, this`list, this`live, this`cells
      ensures Valid() && freep == prevp != 0 && b !in old(live) && live == old(live) + {b}
      ensures b in size && size[b] == nunits && b == p + old(size[p]) - nunits
      ensures cells.Keys == old(cells.Keys) && Kept(old(H()), H())
    {
      hide HeapInv, Kept;
      b := p;
      if size[p] == nunits {
        TakeWhole(prevp, p, i);
      } else {
        b := TakeTail(prevp, p, nunits, i);
      }
    }

    /** The first call of malloc makes base the only block on the list. */
    method Init()
      requires Valid()
      modifies this`size, this`ptr, this`freep, this`list
      ensures Valid() && freep != 0 && live == old(live) && cells == old(cells) && Kept(old(H()), H())
      ensures old(freep) != 0 ==> H() == old(H()) && freep == old(freep)
      ensures forall n: nat :: n > 0 ==> (Absorbed(old(H()), n) <==> Absorbed(H(), n))
    {
      if freep == 0 {
        BaseAlone(size, ptr);
        NothingKept(H(), size[BASE := 0], ptr[BASE := BASE]);
        freep := BASE;
        ptr := ptr[BASE := freep];
        size := size[BASE := 0];
        list := [BASE];
      } else {
        KeptSelf(H());
      }
    }

    /** First fit from freep; at is what sbrk would return (0 if it fails). A live block of
        just the units asked for, or 0 when no free block will do and sbrk fails. calls
        counts the calls of morecore: one at most. wild: the units are so many that sbrk was
        asked for something else and gave it; what the source then puts on its list is not
        memory that it has. */
    method Malloc(nbytes: nat, at: nat) returns (ap: nat, wild: bool, ghost calls: nat)
      requires Valid() && nbytes < WRAP && (at == 0 || at >= top)
      modifies this
      ensures wild <==>
              !Absorbed(old(H()), Units(nbytes)) && at != 0 && SbrkArg(Units(nbytes)) != Units(nbytes) * HEADER
      ensures !wild ==> Valid() && calls <= 1 && Kept(old(H()), H())
      ensures !wild && ap == 0 ==> at == 0 && calls == 1 && live == old(live) && cells == old(cells)
                                     && !Absorbed(H(), Units(nbytes))
      ensures !wild && ap != 0 ==>
                && ap - 1 !in old(live) && live == old(live) + {ap - 1}
                && ap - 1 in size && size[ap - 1] == Units(nbytes)
      ensures !wild && calls == 0 ==> cells.Keys == old(cells.Keys)
      ensures !wild && calls == 0 && ap != 0 && old(freep) != 0 ==>
                TookFirstFit(old(H()), old(freep), Units(nbytes), ap - 1, freep)
      ensures !wild && calls == 1 && ap != 0 ==>
                at != 0 && cells.Keys == old(cells.Keys) + Range(at, at + Most(Units(nbytes)))
      ensures !wild && calls == 1 ==> !Absorbed(old(H()), Units(nbytes))
    {
      hide HeapInv, Absorbed, ScannedSmall, BigAhead, Kept, Range, TookFirstFit;
      var nunits := Units(nbytes);
      SbrkAsked(nbytes);
      wild := false;
      Init();
      var prevp := freep;
      ghost var h0, h1 := old(H()), H();
      ghost var f: nat := FindIndex(list, freep);
      ghost var j: nat := f;
      calls := 0;
      ScanStarts(H(), f, nunits);
      NextLinked(H(), j);
      var p := ptr[prevp];
      while true
        invariant Valid() && freep != 0 && calls <= 1 && f < |list| && list[f] == freep
        invariant j < |list| && prevp == list[j] && p == list[Next(j, |list|)]
        invariant live == old(live) && Kept(h0, H())
        invariant calls == 0 ==> ScannedSmall(H(), f, Next(j, |list|), nunits) && H() == h1 && top == old(top)
        invariant calls == 0 && old(freep) != 0 ==> h1 == h0 && freep == old(freep)
        invariant calls == 1 ==> BigAhead(H(), f, Next(j, |list|), nunits) && !Absorbed(h1, nunits)
        invariant calls == 1 ==> at != 0 && cells.Keys == old(cells.Keys) + Range(at, at + Most(nunits))
        invariant calls == 1 ==> SbrkArg(nunits) == nunits * HEADER
        decreases 1 - calls, Steps(Next(j, |list|), f, |list|)
      {
        ghost var i, k := Next(j, |list|), H();
        NextLinked(k, i);
        if size[p] >= nunits {
          InListAbsorbed(k, i, nunits);
          if calls == 0 { FitFound(k, f, j, nunits); }
          var b := Take(prevp, p, nunits, i);
          KeptBoth(h0, k, H());
          return b + 1, false, calls;
        }
        if p == freep {
          SamePlace(k, i, f);
          ScanEnds(k, f, nunits);
          if at != 0 && SbrkArg(nunits) != nunits * HEADER { return 0, true, calls + 1; }
          p := Morecore(nunits, at);
          KeptBoth(h0, k, H());
          calls := calls + 1;
          if p == 0 { return 0, false, calls; }
          f := FindIndex(list, freep);
          i := f;
          ScanStarts(H(), f, nunits);
          NextLinked(H(), i);
        } else {
          ScanStep(k, f, i, nunits);
        }
        prevp, j := p, i;
        p := ptr[p];
      }
    }
  }
}
