/**
 The buffer cache (bio.c): NBUF buffers on a circular doubly linked list, most recently
 released first, over one disk (memide.c). Buffers are numbered; HEAD is bcache.head.
*/
module BufCache {
  import opened Common

  const HEAD: nat := NBUF

  type Block = seq<int>

  /** flags are B_VALID and B_DIRTY. */
  datatype Buf = Buf(dev: nat, blockno: nat, valid: bool, dirty: bool, refcnt: nat, data: Block)

  // ---------- the list ----------

  function After(i: nat, n: nat): nat
    requires i < n
  {
    if i + 1 < n then i + 1 else 0
  }

  /** c is a cycle of different nodes, linked both ways. */
  ghost predicate Cycle(next: seq<nat>, prev: seq<nat>, c: seq<nat>) {
    && |c| > 0 && |next| == |prev| && Distinct(c)
    && (forall i :: 0 <= i < |c| ==> c[i] < |next|)
    && (forall i: nat :: i < |c| ==> LinkAt(next, prev, c, i))
  }

  ghost predicate LinkAt(next: seq<nat>, prev: seq<nat>, c: seq<nat>, i: nat)
    requires i < |c| && |next| == |prev|
  {
    var j := After(i, |c|);
    && c[i] < |next| && c[j] < |next|
    && next[c[i]] == c[j] && prev[c[j]] == c[i]
  }

  lemma Apart(c: seq<nat>, i: nat, j: nat)
    requires Distinct(c) && i < |c| && j < |c| && c[i] == c[j]
    ensures i == j
  {
  }

  /** The k-th node of the cycle is taken out of it. */
  lemma Unlink(next: seq<nat>, prev: seq<nat>, c: seq<nat>, k: nat)
    requires Cycle(next, prev, c) && 0 < k < |c|
    ensures var b := c[k];
            && b < |next| && next[b] < |next| && prev[b] < |next|
            && Cycle(next[prev[b] := next[b]], prev[next[b] := prev[b]], c[..k] + c[k + 1..])
            && b !in c[..k] + c[k + 1..]
  {
    var b := c[k];
    assert LinkAt(next, prev, c, k) && LinkAt(next, prev, c, k - 1);
    var d, next', prev' := c[..k] + c[k + 1..], next[prev[b] := next[b]], prev[next[b] := prev[b]];
    forall i: nat | i < |d| ensures d[i] == c[if i < k then i else i + 1] { }
    forall i: nat | i < |d| ensures LinkAt(next', prev', d, i) {
      UnlinkAt(next, prev, c, k, i);
    }
  }

  lemma UnlinkAt(next: seq<nat>, prev: seq<nat>, c: seq<nat>, k: nat, i: nat)
    requires Cycle(next, prev, c) && 0 < k < |c| && i < |c| - 1
    requires LinkAt(next, prev, c, k) && LinkAt(next, prev, c, k - 1)
    ensures var b := c[k];
            LinkAt(next[prev[b] := next[b]], prev[next[b] := prev[b]], c[..k] + c[k + 1..], i)
  {
    var d := c[..k] + c[k + 1..];
    var i', j := if i < k then i else i + 1, After(i, |d|);
    var j' := if j < k then j else j + 1;
    assert d[i] == c[i'] && d[j] == c[j'];
    assert LinkAt(next, prev, c, i');
    hide Cycle;
    if i' != k - 1 { assert c[i'] != c[k - 1] && c[j'] != c[After(k, |c|)] by { NotSame(next, prev, c, k, i', j'); } }
  }

  lemma NotSame(next: seq<nat>, prev: seq<nat>, c: seq<nat>, k: nat, i: nat, j: nat)
    requires Cycle(next, prev, c) && 0 < k < |c| && i < |c| && j < |c| && i != k - 1 && j != After(k, |c|)
    ensures c[i] != c[k - 1] && c[j] != c[After(k, |c|)]
  {
  }

  /** A node b joins the cycle after its first one. */
  lemma Relink(next: seq<nat>, prev: seq<nat>, c: seq<nat>, b: nat)
    requires Cycle(next, prev, c) && b < |next| && b !in c
    ensures var h := c[0];
            && h < |next| && next[h] < |next|
            && Cycle(next[b := next[h]][h := b], prev[b := h][next[h] := b], [h, b] + c[1..])
  {
    var h := c[0];
    assert LinkAt(next, prev, c, 0);
    var d, next', prev' := [h, b] + c[1..], next[b := next[h]][h := b], prev[b := h][next[h] := b];
    assert forall i :: 0 <= i < |c| ==> c[i] in c && c[i] != b;
    forall i: nat | i < |d| ensures LinkAt(next', prev', d, i) {
      RelinkAt(next, prev, c, b, i);
    }
    forall i, j | 0 <= i < j < |d| ensures d[i] != d[j] {
      assert d[j] == if j == 1 then b else c[j - 1];
    }
  }

  lemma RelinkAt(next: seq<nat>, prev: seq<nat>, c: seq<nat>, b: nat, i: nat)
    requires Cycle(next, prev, c) && b < |next| && b !in c && i <= |c|
    requires LinkAt(next, prev, c, 0)
    ensures var h := c[0];
            LinkAt(next[b := next[h]][h := b], prev[b := h][next[h] := b], [h, b] + c[1..], i)
  {
    var d := [c[0], b] + c[1..];
    if i >= 2 {
      assert LinkAt(next, prev, c, i - 1) && d[i] == c[i - 1];
      var j := After(i - 1, |c|);
      assert c[i - 1] in c && c[j] in c && c[0] in c && c[i - 1] != c[0];
      assert j != After(0, |c|) && c[j] != c[After(0, |c|)];
      hide Cycle;
      assert d[After(i, |d|)] == c[j];
    } else {
      assert c[0] in c && c[After(0, |c|)] in c;
      hide Cycle;
    }
  }

  // ---------- least recently released ----------

  /** order lists all the buffers, the latest release first. */
  ghost predicate OrderInv(order: seq<nat>, stamps: seq<nat>, clock: nat) {
    && |order| == |stamps| == NBUF && Distinct(order)
    && (forall i :: 0 <= i < NBUF ==> order[i] < NBUF)
    && (forall b: nat :: b < NBUF ==> b in order && stamps[b] < clock)
    && (forall i, j :: 0 <= i < j < NBUF ==> stamps[order[i]] > stamps[order[j]])
  }

  /** order with b in front. */
  function InFront(order: seq<nat>, k: nat): seq<nat>
    requires k < |order|
  {
    [order[k]] + order[..k] + order[k + 1..]
  }

  /** Where the i-th of InFront was. */
  function Was(k: nat, i: nat): nat {
    if i == 0 then k else if i <= k then i - 1 else i
  }

  lemma InFrontAt(order: seq<nat>, k: nat, i: nat)
    requires k < |order| && i < |order|
    ensures |InFront(order, k)| == |order| && Was(k, i) < |order| && InFront(order, k)[i] == order[Was(k, i)]
    ensures order[i] in InFront(order, k)
  {
    var j := if i == k then 0 else if i < k then i + 1 else i;
    assert InFront(order, k)[j] == order[i];
  }

  lemma InFrontSorted(order: seq<nat>, stamps: seq<nat>, clock: nat, k: nat, i: nat, j: nat)
    requires OrderInv(order, stamps, clock) && k < NBUF && i < j < NBUF
    ensures order[k] < NBUF && |InFront(order, k)| == NBUF
    ensures InFront(order, k)[i] < NBUF && InFront(order, k)[j] < NBUF
    ensures var o, s := InFront(order, k), stamps[order[k] := clock]; o[i] != o[j] && s[o[i]] > s[o[j]]
  {
    InFrontAt(order, k, i);
    InFrontAt(order, k, j);
    var i', j' := Was(k, i), Was(k, j);
    assert i' != j' && j' != k && (i == 0 || i' < j');
    assert order[j'] != order[k];
    assert i != 0 ==> order[i'] != order[k];
  }

  lemma InFrontInv(order: seq<nat>, stamps: seq<nat>, clock: nat, k: nat)
    requires OrderInv(order, stamps, clock) && k < NBUF
    ensures order[k] < NBUF && OrderInv(InFront(order, k), stamps[order[k] := clock], clock + 1)
  {
    var o, s := InFront(order, k), stamps[order[k] := clock];
    forall i | 0 <= i < NBUF ensures o[i] < NBUF { InFrontAt(order, k, i); }
    forall x: nat | x < NBUF ensures x in o {
      assert x in order;
      var j: nat :| j < |order| && order[j] == x;
      InFrontAt(order, k, j);
    }
    forall i, j | 0 <= i < j < NBUF ensures s[o[i]] > s[o[j]] && o[i] != o[j] {
      InFrontSorted(order, stamps, clock, k, i, j);
    }
  }

  /** Any two but x come in the same order in a and in b. */
  ghost predicate SameOrder(a: seq<nat>, b: seq<nat>, x: nat) {
    forall i, j, k, l ::
      0 <= i < j < |a| && 0 <= k < |b| && 0 <= l < |b| && x != a[i] == b[k] && x != a[j] == b[l] ==> k < l
  }

  lemma OrderKept(a: seq<nat>, s: seq<nat>, clock: nat, b: seq<nat>, t: seq<nat>, now: nat, x: nat)
    requires OrderInv(a, s, clock) && OrderInv(b, t, now) && x < NBUF && t == s[x := clock]
    ensures SameOrder(a, b, x)
  {
    forall i, j, k, l | 0 <= i < j < |a| && 0 <= k < |b| && 0 <= l < |b| && x != a[i] == b[k] && x != a[j] == b[l]
      ensures k < l
    {
      assert t[b[k]] > t[b[l]];
    }
  }

  /** The links after brelse's six assignments. */
  function NextAfter(n: seq<nat>, p: seq<nat>, b: nat): seq<nat>
    requires HEAD < |n| && b < |n| && b < |p| && p[b] < |n|
  {
    var n1: seq<nat> := n[p[b] := n[b]];
    var n2: seq<nat> := n1[b := n1[HEAD]];
    n2[HEAD := b]
  }

  function PrevAfter(n: seq<nat>, p: seq<nat>, b: nat): seq<nat>
    requires HEAD < |n| && b < |n| && b < |p| && p[b] < |n| && n[b] < |p|
    requires var n1: seq<nat> := n[p[b] := n[b]]; n1[HEAD] < |p|
  {
    var n1: seq<nat> := n[p[b] := n[b]];
    var p1: seq<nat> := p[n[b] := p[b]];
    var p2: seq<nat> := p1[b := HEAD];
    p2[n1[HEAD] := b]
  }

  lemma Spliced(n: seq<nat>, p: seq<nat>, order: seq<nat>, k: nat)
    requires Cycle(n, p, [HEAD] + order) && k < |order| && HEAD < |n|
    ensures var b := order[k];
            && b < |n| == |p| && p[b] < |n| && n[b] < |n| && b != HEAD
            && (var n1: seq<nat> := n[p[b] := n[b]]; n1[HEAD] < |p| && n1[HEAD] != b)
            && Cycle(NextAfter(n, p, b), PrevAfter(n, p, b), [HEAD] + InFront(order, k))
  {
    var c, b := [HEAD] + order, order[k];
    assert c[k + 1] == b && c[0] == HEAD;
    Unlink(n, p, c, k + 1);
    var d := c[..k + 1] + c[k + 2..];
    var n1: seq<nat>, p1: seq<nat> := n[p[b] := n[b]], p[n[b] := p[b]];
    assert LinkAt(n1, p1, d, 0) && n1[HEAD] in d;
    Relink(n1, p1, d, b);
    assert [HEAD, b] + d[1..] == [HEAD] + InFront(order, k);
  }

  /** Going back from head, and from the i-th buffer. */
  lemma LinkBack(next: seq<nat>, prev: seq<nat>, order: seq<nat>, i: nat)
    requires Cycle(next, prev, [HEAD] + order) && |order| == NBUF && i <= NBUF && |prev| == NBUF + 1
    ensures i < NBUF ==> order[i] < |prev| && prev[order[i]] == if i == 0 then HEAD else order[i - 1]
    ensures i == NBUF ==> prev[HEAD] == order[NBUF - 1]
  {
    assert LinkAt(next, prev, [HEAD] + order, i);
  }

  // ---------- the buffers ----------

  /** No block of a device is in two buffers. Device 0 marks a buffer never used. */
  ghost predicate OneEach(bufs: seq<Buf>) {
    forall i, j :: 0 <= i < j < |bufs| && bufs[i].dev != 0 && bufs[i].dev == bufs[j].dev ==>
        bufs[i].blockno != bufs[j].blockno
  }

  /** The disk with the writes that have not reached it yet. */
  function Overlay(disk: seq<Block>, pending: map<nat, Block>, b: nat): Block
    requires b < |disk|
  {
    if b in pending then pending[b] else disk[b]
  }

  /** A buffer that may be dropped: nobody holds it and the log does not pin it. */
  predicate Droppable(x: Buf) {
    x.refcnt == 0 && !x.dirty
  }

  /** What a valid buffer has is what its block is; a write not yet on disk is in a
      buffer that is dirty or held. */
  ghost predicate DataInv(bufs: seq<Buf>, disk: seq<Block>, pending: map<nat, Block>, held: set<nat>) {
    && (forall i: nat :: i < |bufs| ==> BufOk(bufs[i], i, disk, pending, held))
    && (forall b :: b in pending ==> b < |disk| && exists i: nat :: i < |bufs| && Keeps(bufs[i], b))
  }

  ghost predicate Keeps(x: Buf, b: nat) {
    x.dev == 1 && x.blockno == b && x.valid
  }

  ghost predicate BufOk(x: Buf, i: nat, disk: seq<Block>, pending: map<nat, Block>, held: set<nat>) {
    && (x.dirty ==> x.valid)
    && (i in held ==> x.refcnt > 0)
    && (x.valid ==> x.dev == 1 && x.blockno < |disk| && x.data == Overlay(disk, pending, x.blockno))
    && (x.valid && !x.dirty && i !in held ==> x.blockno !in pending)
  }

  lemma Recycled(bufs: seq<Buf>, disk: seq<Block>, pending: map<nat, Block>, held: set<nat>, k: nat, x: Buf)
    requires DataInv(bufs, disk, pending, held) && OneEach(bufs) && k < |bufs| && Droppable(bufs[k])
    requires !x.valid && !x.dirty && forall i :: 0 <= i < |bufs| ==>
             !(bufs[i].dev == x.dev && bufs[i].blockno == x.blockno)
    ensures DataInv(bufs[k := x], disk, pending, held) && OneEach(bufs[k := x])
  {
    assert BufOk(bufs[k], k, disk, pending, held);
    var t := bufs[k := x];
    forall b | b in pending ensures exists i: nat :: i < |t| && Keeps(t[i], b) {
      var i: nat :| i < |bufs| && Keeps(bufs[i], b);
      assert i != k && Keeps(t[i], b);
    }
  }

  /** A change that leaves device, block, and what is kept alone. */
  lemma SameBuf(bufs: seq<Buf>, disk: seq<Block>, pending: map<nat, Block>, held: set<nat>, k: nat, x: Buf,
                held': set<nat>)
    requires DataInv(bufs, disk, pending, held) && OneEach(bufs) && k < |bufs|
    requires x.dev == bufs[k].dev && x.blockno == bufs[k].blockno && x.valid == bufs[k].valid && x.data == bufs[k].data
    requires BufOk(x, k, disk, pending, held') && held' - {k} == held - {k}
    ensures DataInv(bufs[k := x], disk, pending, held') && OneEach(bufs[k := x])
  {
    var t := bufs[k := x];
    forall i: nat | i < |t| ensures BufOk(t[i], i, disk, pending, held') {
      assert BufOk(bufs[i], i, disk, pending, held);
      assert i != k ==> (i in held' <==> i in held' - {k}) && (i in held <==> i in held - {k});
    }
    forall b | b in pending ensures exists i: nat :: i < |t| && Keeps(t[i], b) {
      var i: nat :| i < |bufs| && Keeps(bufs[i], b);
      assert Keeps(t[i], b);
    }
  }

  /** The holder of a block changes it, here or on disk: other blocks do not change. */
  lemma BlockChanged(bufs: seq<Buf>, disk: seq<Block>, pending: map<nat, Block>, held: set<nat>, k: nat, x: Buf,
                     disk': seq<Block>, pending': map<nat, Block>)
    requires DataInv(bufs, disk, pending, held) && OneEach(bufs) && k < |bufs| && |disk'| == |disk|
    requires x.dev == bufs[k].dev == 1 && x.blockno == bufs[k].blockno < |disk| && BufOk(x, k, disk', pending', held)
             && x.valid
    requires pending' - {x.blockno} == pending - {x.blockno}
    requires forall b :: 0 <= b < |disk| && b != x.blockno ==> disk'[b] == disk[b]
    ensures DataInv(bufs[k := x], disk', pending', held) && OneEach(bufs[k := x])
  {
    var t := bufs[k := x];
    forall b: nat | b < |disk| && b != x.blockno
      ensures (b in pending' <==> b in pending) && Overlay(disk', pending', b) == Overlay(disk, pending, b)
    {
      assert (b in pending' <==> b in pending' - {x.blockno}) && (b in pending <==> b in pending - {x.blockno});
      assert b in pending ==> pending'[b] == (pending' - {x.blockno})[b] && pending[b] == (pending - {x.blockno})[b];
    }
    forall i: nat | i < |t| ensures BufOk(t[i], i, disk', pending', held) {
      assert BufOk(bufs[i], i, disk, pending, held);
    }
    forall b | b in pending' ensures b < |disk'| && exists i: nat :: i < |t| && Keeps(t[i], b) {
      if b == x.blockno {
        assert Keeps(t[k], b);
      } else {
        assert b in pending' - {x.blockno} && b in pending;
        var i: nat :| i < |bufs| && Keeps(bufs[i], b);
        assert Keeps(t[i], b);
      }
    }
  }

  function CountDown(n: nat): (q: seq<nat>)
    ensures |q| == n
  {
    if n == 0 then [] else [n - 1] + CountDown(n - 1)
  }

  lemma {:induction false} CountDownIs(n: nat)
    ensures forall i :: 0 <= i < n ==> CountDown(n)[i] == n - 1 - i
    ensures forall b: nat :: b in CountDown(n) <==> b < n
  {
    if n > 0 {
      CountDownIs(n - 1);
    }
  }

  lemma NobodyYet(n: seq<nat>, p: seq<nat>)
    requires |n| == |p| == NBUF + 1 && n[HEAD] == HEAD && p[HEAD] == HEAD
    ensures Cycle(n, p, [HEAD] + CountDown(0))
  {
    assert LinkAt(n, p, [HEAD], 0);
  }

  lemma Pushed(n: seq<nat>, p: seq<nat>, b: nat)
    requires Cycle(n, p, [HEAD] + CountDown(b)) && b < NBUF && |n| == NBUF + 1
    ensures n[HEAD] < |p| == NBUF + 1
    ensures var n1: seq<nat>, p1: seq<nat> := n[b := n[HEAD]], p[b := HEAD];
            Cycle(n1[HEAD := b], p1[n[HEAD] := b], [HEAD] + CountDown(b + 1))
  {
    CountDownIs(b);
    Relink(n, p, [HEAD] + CountDown(b), b);
    assert [HEAD, b] + ([HEAD] + CountDown(b))[1..] == [HEAD] + CountDown(b + 1);
  }

  class Cache {
    const buf: array<Buf>
    const next: array<nat>
    const prev: array<nat>
    var disk: seq<Block>
    ghost var order: seq<nat>
    ghost var stamps: seq<nat>
    ghost var clock: nat
    /** Buffers whose sleeplock is held. */
    ghost var held: set<nat>
    /** Blocks changed in the cache and not yet on disk. */
    ghost var pending: map<nat, Block>

    ghost predicate Shape()
      reads this
    {
      buf.Length == NBUF && next.Length == NBUF + 1 && prev.Length == NBUF + 1 && next != prev
    }

    ghost predicate ListInv()
      reads this, next, prev
    {
      Shape() && OrderInv(order, stamps, clock) && Cycle(next[..], prev[..], [HEAD] + order)
    }

    ghost predicate Valid()
      reads this, buf, next, prev
    {
      && ListInv()
      && OneEach(buf[..]) && DataInv(buf[..], disk, pending, held)
      && (forall b :: b in held ==> b < NBUF)
    }

    /** binit: each buffer in turn goes to the front of the list. */
    constructor (disk: seq<Block>)
      ensures Valid() && this.disk == disk && pending == map[] && held == {} && fresh(buf) && fresh(next) && fresh(prev)
      ensures |order| == |stamps| == NBUF == clock
      ensures forall i :: 0 <= i < NBUF ==> order[i] == NBUF - 1 - i && stamps[i] == i
      ensures forall i :: 0 <= i < NBUF ==> buf[i] == Buf(0, 0, false, false, 0, [])
    {
      buf := new Buf[NBUF](_ => Buf(0, 0, false, false, 0, []));
      next := new nat[NBUF + 1](_ => HEAD);
      prev := new nat[NBUF + 1](_ => HEAD);
      this.disk := disk;
      held, pending := {}, map[];
      order, stamps, clock := CountDown(NBUF), seq(NBUF, i => i), NBUF;
      new;
      NobodyYet(next[..], prev[..]);
      hide Cycle;
      var b := 0;
      while b < NBUF
        invariant 0 <= b <= NBUF && Shape() && Cycle(next[..], prev[..], [HEAD] + CountDown(b))
        invariant fresh(next) && fresh(prev) && fresh(buf)
        invariant forall i :: 0 <= i < NBUF ==> buf[i] == Buf(0, 0, false, false, 0, [])
        invariant this.disk == disk && held == {} && pending == map[] && clock == NBUF
        invariant order == CountDown(NBUF) && |stamps| == NBUF && forall i :: 0 <= i < NBUF ==> stamps[i] == i
      {
        ghost var n: seq<nat>, p: seq<nat> := next[..], prev[..];
        Pushed(n, p, b);
        next[b] := next[HEAD];
        prev[b] := HEAD;
        prev[next[HEAD]] := b;
        next[HEAD] := b;
        ghost var n1: seq<nat>, p1: seq<nat> := n[b := n[HEAD]], p[b := HEAD];
        assert next[..] == n1[HEAD := b] && prev[..] == p1[n[HEAD] := b];
        b := b + 1;
      }
      CountDownIs(NBUF);
      assert forall i: nat :: i < NBUF ==> BufOk(buf[..][i], i, disk, pending, held);
    }

    /** bget's first search, from the front of the list. */
    method FindCached(dev: nat, blockno: nat) returns (found: bool, b: nat)
      requires ListInv()
      ensures found ==> b < NBUF && buf[b].dev == dev && buf[b].blockno == blockno
      ensures !found ==> forall x :: 0 <= x < NBUF ==> !(buf[x].dev == dev && buf[x].blockno == blockno)
    {
      ghost var c := [HEAD] + order;
      ghost var i: nat := 1;
      assert LinkAt(next[..], prev[..], c, 0);
      b := next[HEAD];
      while b != HEAD
        invariant 1 <= i <= |c| && b == (if i < |c| then c[i] else HEAD)
        invariant forall k :: 1 <= k < i ==> !(buf[c[k]].dev == dev && buf[c[k]].blockno == blockno)
        decreases |c| - i
      {
        assert b == order[i - 1];
        if buf[b].dev == dev && buf[b].blockno == blockno { return true, b; }
        assert LinkAt(next[..], prev[..], c, i);
        b := next[b];
        i := i + 1;
      }
      forall x: nat | x < NBUF ensures !(buf[x].dev == dev && buf[x].blockno == blockno) {
        assert x in order;
        var k: nat :| k < |order| && order[k] == x;
        assert c[k + 1] == x;
      }
      return false, 0;
    }

    /** bget's second search, from the back: the least recently released buffer that may
        be dropped. */
    method FindVictim() returns (found: bool, b: nat)
      requires ListInv()
      ensures found ==> b < NBUF && Droppable(buf[b]) && |stamps| == NBUF
      ensures found ==> forall x :: 0 <= x < NBUF && stamps[x] < stamps[b] ==> !Droppable(buf[x])
      ensures !found ==> forall x :: 0 <= x < NBUF ==> !Droppable(buf[x])
    {
      ghost var i: nat := NBUF;
      OrderFacts(order, stamps, clock);
      hide OrderInv, Cycle;
      LinkBack(next[..], prev[..], order, NBUF);
      b := prev[HEAD];
      while b != HEAD
        invariant 0 <= i <= NBUF && b == (if i == 0 then HEAD else order[i - 1])
        invariant forall k :: i <= k < NBUF ==> !Droppable(buf[order[k]])
        decreases i
      {
        if buf[b].refcnt == 0 && !buf[b].dirty {
          LeastRecent(buf[..], order, stamps, clock, i - 1);
          return true, b;
        }
        LinkBack(next[..], prev[..], order, i - 1);
        b := prev[b];
        i := i - 1;
      }
      EveryBuf(buf[..], order, stamps, clock);
      return false, 0;
    }

    /** bget, as far as taking the sleeplock: the block's buffer if there is one, else the
        least recently released one that may be dropped. None when the source panics. */
    method Bget(dev: nat, blockno: nat) returns (found: bool, b: nat)
      requires Valid()
      modifies buf
      ensures Valid()
      ensures found ==> b < NBUF && |stamps| == NBUF
      ensures found && Cached(old(buf[..]), dev, blockno) ==>
                && old(buf[b]).dev == dev && old(buf[b]).blockno == blockno
                && buf[..] == old(buf[..])[b := old(buf[b]).(refcnt := old(buf[b]).refcnt + 1)]
      ensures found && !Cached(old(buf[..]), dev, blockno) ==>
                && old(buf[b]).refcnt == 0 && !old(buf[b]).dirty
                && (forall x :: 0 <= x < NBUF && stamps[x] < stamps[b] ==> old(buf[x]).refcnt > 0 || old(buf[x]).dirty)
                && buf[..] == old(buf[..])[b := Buf(dev, blockno, false, false, 1, old(buf[b]).data)]
      ensures !found ==> buf[..] == old(buf[..]) && !Cached(buf[..], dev, blockno)
      ensures !found ==> forall x :: 0 <= x < NBUF ==> buf[x].refcnt > 0 || buf[x].dirty
    {
      ghost var t := buf[..];
      found, b := FindCached(dev, blockno);
      if found {
        assert Cached(t, dev, blockno) by { assert t[b] == buf[b]; }
        ghost var x := t[b].(refcnt := t[b].refcnt + 1);
        assert BufOk(t[b], b, disk, pending, held);
        SameBuf(t, disk, pending, held, b, x, held);
        buf[b] := buf[b].(refcnt := buf[b].refcnt + 1);
        assert buf[..] == t[b := x];
        return;
      }
      found, b := FindVictim();
      if found {
        var x := Buf(dev, blockno, false, false, 1, buf[b].data);
        Recycled(t, disk, pending, held, b, x);
        buf[b] := x;
        assert buf[..] == t[b := x];
      }
    }

    /** acquiresleep on the buffer, once it is free. */
    method Lock(b: nat)
      requires Valid() && b < NBUF && b !in held && buf[b].refcnt > 0
      modifies this`held
      ensures Valid() && held == old(held) + {b}
    {
      ghost var t := buf[..];
      assert BufOk(t[b], b, disk, pending, held);
      SameBuf(t, disk, pending, held, b, t[b], held + {b});
      assert t[b := t[b]] == t;
      held := held + {b};
    }

    /** bread, once it has the lock: the buffer has the block as it is, with the writes
        that are not on disk yet. */
    method Fill(b: nat)
      requires Valid() && b in held && buf[b].dev == 1 && buf[b].blockno < |disk|
      modifies buf
      ensures Valid() && buf[b].valid && buf[b].data == Overlay(disk, pending, buf[b].blockno)
      ensures buf[..] == old(buf[..])[b := buf[b]] && buf[b] == old(buf[b]).(valid := true, data := buf[b].data)
    {
      ghost var t := buf[..];
      assert BufOk(t[b], b, disk, pending, held);
      if !buf[b].valid {
        NotPending(t, disk, pending, held, b);
        buf[b] := buf[b].(valid := true, data := disk[buf[b].blockno]);
        BlockChanged(t, disk, pending, held, b, buf[b], disk, pending);
        assert buf[..] == t[b := buf[b]];
      }
    }

    /** The holder changes the block. */
    method Modify(b: nat, data: Block)
      requires Valid() && b in held && buf[b].valid
      modifies buf, this`pending
      ensures Valid() && buf[..] == old(buf[..])[b := old(buf[b]).(data := data)]
      ensures pending == old(pending)[buf[b].blockno := data]
    {
      ghost var t := buf[..];
      assert BufOk(t[b], b, disk, pending, held);
      ghost var p := pending[buf[b].blockno := data];
      buf[b] := buf[b].(data := data);
      BlockChanged(t, disk, pending, held, b, buf[b], disk, p);
      pending := p;
      assert buf[..] == t[b := buf[b]];
    }

    /** log_write's pin. */
    method Pin(b: nat)
      requires Valid() && b in held && buf[b].valid
      modifies buf
      ensures Valid() && buf[..] == old(buf[..])[b := old(buf[b]).(dirty := true)]
    {
      ghost var t := buf[..];
      assert BufOk(t[b], b, disk, pending, held);
      SameBuf(t, disk, pending, held, b, t[b].(dirty := true), held);
      buf[b] := buf[b].(dirty := true);
      assert buf[..] == t[b := buf[b]];
    }

    /** bwrite: the block is on disk as the cache has it, and is pinned no more. */
    method Bwrite(b: nat)
      requires Valid() && b in held && buf[b].valid
      modifies buf, this`disk, this`pending
      ensures Valid() && buf[..] == old(buf[..])[b := old(buf[b]).(dirty := false)]
      ensures buf[b].blockno < |old(disk)| && disk == old(disk)[buf[b].blockno := buf[b].data]
      ensures pending == old(pending) - {buf[b].blockno}
    {
      ghost var t, d := buf[..], disk;
      assert BufOk(t[b], b, disk, pending, held);
      buf[b] := buf[b].(dirty := true);
      buf[b] := buf[b].(dirty := false);
      disk := disk[buf[b].blockno := buf[b].data];
      BlockChanged(t, d, pending, held, b, buf[b], disk, pending - {buf[b].blockno});
      pending := pending - {buf[b].blockno};
      assert buf[..] == t[b := buf[b]];
    }

    /** brelse. A holder that changed the block has written it, or the log has pinned it.
        The last to let go moves the buffer to the front of the list. */
    method Brelse(b: nat)
      requires Valid() && b in held && (buf[b].dirty || buf[b].blockno !in pending)
      modifies buf, next, prev, this`held, this`order, this`stamps, this`clock
      ensures Valid() && held == old(held) - {b} && old(buf[b]).refcnt > 0
      ensures buf[..] == old(buf[..])[b := old(buf[b]).(refcnt := old(buf[b]).refcnt - 1)]
      ensures buf[b].refcnt > 0 ==> order == old(order) && stamps == old(stamps) && clock == old(clock)
      ensures buf[b].refcnt == 0 ==> MovedUp(old(order), order, old(stamps), stamps, old(clock), clock, b)
    {
      ghost var t := buf[..];
      assert BufOk(t[b], b, disk, pending, held);
      ghost var x := t[b].(refcnt := t[b].refcnt - 1);
      SameBuf(t, disk, pending, held, b, x, held - {b});
      held := held - {b};
      buf[b] := buf[b].(refcnt := buf[b].refcnt - 1);
      assert buf[..] == t[b := x];
      if buf[b].refcnt == 0 { ToFront(b); }
    }

    /** brelse's splice. */
    method ToFront(b: nat)
      requires ListInv() && b < NBUF
      modifies next, prev, this`order, this`stamps, this`clock
      ensures ListInv() && MovedUp(old(order), order, old(stamps), stamps, old(clock), clock, b)
    {
      hide Cycle, OrderInv, MovedUp, InFront;
      ghost var k := PlaceOf(order, stamps, clock, b);
      ghost var n: seq<nat>, p: seq<nat> := next[..], prev[..];
      Spliced(n, p, order, k);
      FrontMoved(order, stamps, clock, k);
      prev[next[b]] := prev[b];
      next[prev[b]] := next[b];
      next[b] := next[HEAD];
      prev[b] := HEAD;
      prev[next[HEAD]] := b;
      next[HEAD] := b;
      assert next[..] == NextAfter(n, p, b) && prev[..] == PrevAfter(n, p, b);
      order, stamps, clock := InFront(order, k), stamps[b := clock], clock + 1;
    }
  }

  /** b is now in front, the others follow in the order they had, and b has been stamped. */
  ghost predicate MovedUp(was: seq<nat>, order: seq<nat>, stamps0: seq<nat>, stamps: seq<nat>, clock0: nat, clock: nat,
                          b: nat) {
    && |order| == |was| > 0 && order[0] == b && SameOrder(was, order, b)
    && b < |stamps0| && stamps == stamps0[b := clock0] && clock == clock0 + 1
  }

  lemma PlaceOf(order: seq<nat>, stamps: seq<nat>, clock: nat, b: nat) returns (k: nat)
    requires OrderInv(order, stamps, clock) && b < NBUF
    ensures k < |order| == |stamps| == NBUF && order[k] == b
  {
    assert b in order;
    k :| k < |order| && order[k] == b;
  }

  lemma FrontMoved(order: seq<nat>, stamps: seq<nat>, clock: nat, k: nat)
    requires OrderInv(order, stamps, clock) && k < NBUF
    ensures order[k] < |stamps|
    ensures var o, s := InFront(order, k), stamps[order[k] := clock];
            OrderInv(o, s, clock + 1) && MovedUp(order, o, stamps, s, clock, clock + 1, order[k])
  {
    InFrontInv(order, stamps, clock, k);
    OrderKept(order, stamps, clock, InFront(order, k), stamps[order[k] := clock], clock + 1, order[k]);
    hide OrderInv, SameOrder;
  }

  ghost predicate Cached(bufs: seq<Buf>, dev: nat, blockno: nat) {
    exists x :: 0 <= x < |bufs| && bufs[x].dev == dev && bufs[x].blockno == blockno
  }

  /** A block whose only buffer has not been read has no write waiting. */
  lemma NotPending(bufs: seq<Buf>, disk: seq<Block>, pending: map<nat, Block>, held: set<nat>, k: nat)
    requires DataInv(bufs, disk, pending, held) && OneEach(bufs) && k < |bufs| && bufs[k].dev == 1 && !bufs[k].valid
    ensures bufs[k].blockno !in pending
  {
    assert forall i: nat :: i < |bufs| ==> !Keeps(bufs[i], bufs[k].blockno);
  }

  /** A buffer with an earlier stamp is further down the list. */
  lemma LeastRecent(bufs: seq<Buf>, order: seq<nat>, stamps: seq<nat>, clock: nat, k: nat)
    requires OrderInv(order, stamps, clock) && k < NBUF == |bufs|
    requires forall j :: k < j < NBUF ==> !Droppable(bufs[order[j]])
    ensures order[k] < NBUF && |stamps| == NBUF
    ensures forall x :: 0 <= x < NBUF && stamps[x] < stamps[order[k]] ==> !Droppable(bufs[x])
  {
    forall x: nat | x < NBUF && stamps[x] < stamps[order[k]] ensures !Droppable(bufs[x]) {
      assert x in order;
      var j: nat :| j < |order| && order[j] == x;
      assert j > k;
    }
  }

  lemma OrderFacts(order: seq<nat>, stamps: seq<nat>, clock: nat)
    requires OrderInv(order, stamps, clock)
    ensures |order| == |stamps| == NBUF && forall i :: 0 <= i < NBUF ==> order[i] < NBUF
  {
  }

  lemma EveryBuf(bufs: seq<Buf>, order: seq<nat>, stamps: seq<nat>, clock: nat)
    requires OrderInv(order, stamps, clock) && |bufs| == NBUF
    requires forall j :: 0 <= j < NBUF ==> !Droppable(bufs[order[j]])
    ensures forall x :: 0 <= x < NBUF ==> !Droppable(bufs[x])
  {
    forall x: nat | x < NBUF ensures !Droppable(bufs[x]) {
      assert x in order;
      var j: nat :| j < |order| && order[j] == x;
    }
  }
}
