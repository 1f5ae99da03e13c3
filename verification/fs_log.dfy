/**
 What file-system code logs (the log_write calls of fs.c): which blocks are taken from
 the bitmap, and exactly which blocks a write or a truncation logs.
*/
module FsLog {
  import opened Common
  import opened FsModel

  type Owner = map<nat, (nat, nat)>

  /** The bitmap block with b's bit, and the block with inode i. */
  function BBlock(sb: Super, b: nat): nat {
    b / BPB + sb.bmapstart
  }

  function IBlock(sb: Super, i: nat): nat {
    i / IPB + sb.inodestart
  }

  // ---------- free blocks ----------

  /** The free blocks of a bitmap. */
  ghost function FreeSet(bits: seq<bool>): set<nat> {
    set b: nat | b < |bits| && !bits[b]
  }

  ghost function FreeCount(bits: seq<bool>): nat {
    |FreeSet(bits)|
  }

  /** The blocks in use by b and not by a. */
  ghost function NewBits(a: seq<bool>, b: seq<bool>): set<nat> {
    set x: nat | x < |a| && x < |b| && b[x] && !a[x]
  }

  /** From a to b, just the k lowest free blocks are taken. */
  ghost predicate TookLowest(a: seq<bool>, b: seq<bool>, k: nat) {
    && |b| == |a| && FreeCount(a) == FreeCount(b) + k
    && (forall x :: 0 <= x < |a| && a[x] ==> b[x])
    && (forall x, y :: 0 <= y < x < |a| && b[x] && !a[x] ==> b[y])
  }

  lemma NoneFree(bits: seq<bool>)
    ensures FreeCount(bits) == 0 <==> forall b :: 0 <= b < |bits| ==> bits[b]
  {
    if FreeCount(bits) == 0 {
      forall b: nat | b < |bits| ensures bits[b] {
        assert b !in FreeSet(bits);
      }
    } else {
      assert FreeSet(bits) != {};
      var b :| b in FreeSet(bits);
    }
  }

  lemma TookNone(a: seq<bool>)
    ensures TookLowest(a, a, 0)
  {
  }

  lemma TookOne(a: seq<bool>, x: nat)
    requires x < |a| && !a[x] && forall y :: 0 <= y < x ==> a[y]
    ensures TookLowest(a, a[x := true], 1)
  {
    assert FreeSet(a[x := true]) == FreeSet(a) - {x};
  }

  lemma TookBoth(a: seq<bool>, b: seq<bool>, c: seq<bool>, k: nat, l: nat)
    requires TookLowest(a, b, k) && TookLowest(b, c, l)
    ensures TookLowest(a, c, k + l)
  {
  }

  /** That many blocks are new. */
  lemma TookCount(a: seq<bool>, b: seq<bool>, k: nat)
    requires TookLowest(a, b, k)
    ensures |NewBits(a, b)| == k
  {
    assert FreeSet(a) == FreeSet(b) + NewBits(a, b);
    assert FreeSet(b) !! NewBits(a, b);
  }

  // ---------- the blocks of a write ----------

  /** The bitmap blocks of these blocks. */
  ghost function MapBlocks(sb: Super, xs: set<nat>): set<nat> {
    set x | x in xs :: BBlock(sb, x)
  }

  ghost function NewKeys(a: Owner, b: Owner): set<nat> {
    set x | x in b && x !in a
  }

  /** Inode i's data blocks lo up to hi. */
  ghost function DataAt(o: Owner, i: nat, lo: nat, hi: nat): set<nat> {
    set b | b in o && o[b].0 == i && lo <= o[b].1 < hi
  }

  /** Inode i's indirect block. */
  ghost function IndAt(o: Owner, i: nat): set<nat> {
    set b | b in o && o[b] == (i, INDIRECT)
  }

  /** What writing data blocks lo up to hi of inode i logs when that takes the file from e0
      data blocks to e: those blocks, the bitmap blocks of those that are new, and the
      indirect block if one of those is named there. */
  ghost function WroteLog(sb: Super, a: Owner, b: Owner, i: nat, e0: nat, e: nat, lo: nat, hi: nat): set<nat> {
    DataAt(b, i, lo, hi) + MapBlocks(sb, NewKeys(a, b)) + (if e > e0 && e > NDIRECT then IndAt(b, i) else {})
  }

  /** Inode i has gained its data blocks e0 up to e, and an indirect block if it needs one. */
  ghost predicate Grows(a: Owner, b: Owner, i: nat, e0: nat, e: nat) {
    && e0 <= e
    && (forall x :: x in a ==> x in b && b[x] == a[x])
    && (forall x :: x in b && x !in a ==>
          b[x].0 == i && (e0 <= b[x].1 < e || (b[x].1 == INDIRECT && e > e0 && e > NDIRECT)))
  }

  lemma GrowsBoth(a: Owner, b: Owner, c: Owner, i: nat, e0: nat, e1: nat, e2: nat)
    requires Grows(a, b, i, e0, e1) && Grows(b, c, i, e1, e2)
    ensures Grows(a, c, i, e0, e2)
    ensures NewKeys(a, c) == NewKeys(a, b) + NewKeys(b, c)
  {
  }

  lemma MapBlocksBoth(sb: Super, xs: set<nat>, ys: set<nat>)
    ensures MapBlocks(sb, xs + ys) == MapBlocks(sb, xs) + MapBlocks(sb, ys)
  {
  }

  /** A position has one block at most, and a long file has an indirect block. */
  ghost predicate OwnerOk(o: Owner, i: nat, e: nat) {
    && (forall x, y :: x in o && y in o && o[x] == o[y] ==> x == y)
    && (e > NDIRECT ==> IndAt(o, i) != {})
  }

  lemma OwnerFacts(sb: Super, s: Fs, i: nat)
    requires Inv(sb, s) && i < |s.nodes|
    ensures OwnerOk(s.owner, i, s.nodes[i].ext)
    ensures |s.nodes[i].addrs| == NDIRECT + 1
    ensures forall pos: nat :: pos <= INDIRECT && Used(s.nodes[i], pos) ==>
              At(s.blocks, s.nodes[i], pos) in s.owner && s.owner[At(s.blocks, s.nodes[i], pos)] == (i, pos)
  {
    var n := s.nodes[i];
    forall x, y | x in s.owner && y in s.owner && s.owner[x] == s.owner[y] ensures x == y {
      assert OwnedBy(s.blocks, s.nodes, x, s.owner[x].0, s.owner[x].1);
      assert OwnedBy(s.blocks, s.nodes, y, s.owner[y].0, s.owner[y].1);
    }
    forall pos: nat | pos <= INDIRECT && Used(n, pos)
      ensures At(s.blocks, n, pos) in s.owner && s.owner[At(s.blocks, n, pos)] == (i, pos)
    {
      assert Owns(s.blocks, s.nodes, s.owner, i, pos);
    }
    if n.ext > NDIRECT {
      assert Used(n, INDIRECT);
      assert At(s.blocks, n, INDIRECT) in IndAt(s.owner, i);
    }
  }

  lemma DataFrame(a: Owner, b: Owner, i: nat, e0: nat, e: nat, lo: nat, hi: nat)
    requires Grows(a, b, i, e0, e) && hi <= e0 && hi <= INDIRECT
    ensures DataAt(b, i, lo, hi) == DataAt(a, i, lo, hi)
  {
  }

  lemma IndFrame(a: Owner, b: Owner, i: nat, e0: nat, e: nat)
    requires Grows(a, b, i, e0, e) && OwnerOk(a, i, e0) && OwnerOk(b, i, e) && e0 > NDIRECT
    ensures IndAt(b, i) == IndAt(a, i)
  {
    var x :| x in IndAt(a, i);
    assert x in IndAt(b, i);
  }

  /** Rounds of writei add up. */
  lemma WroteBoth(sb: Super, a: Owner, b: Owner, c: Owner, i: nat, e0: nat, e1: nat, e2: nat, lo: nat, hi: nat)
    requires Grows(a, b, i, e0, e1) && Grows(b, c, i, e1, e2) && OwnerOk(b, i, e1) && OwnerOk(c, i, e2)
    requires lo <= hi <= e1 && hi < INDIRECT
    ensures WroteLog(sb, a, b, i, e0, e1, lo, hi) + WroteLog(sb, b, c, i, e1, e2, hi, hi + 1)
         == WroteLog(sb, a, c, i, e0, e2, lo, hi + 1)
  {
    GrowsBoth(a, b, c, i, e0, e1, e2);
    MapBlocksBoth(sb, NewKeys(a, b), NewKeys(b, c));
    DataFrame(b, c, i, e1, e2, lo, hi);
    assert DataAt(c, i, lo, hi + 1) == DataAt(c, i, lo, hi) + DataAt(c, i, hi, hi + 1);
    if e1 > NDIRECT { IndFrame(b, c, i, e1, e2); }
  }

  lemma WroteNone(sb: Super, a: Owner, i: nat, e: nat, lo: nat)
    ensures WroteLog(sb, a, a, i, e, e, lo, lo) == {}
  {
  }

  /** A block that is there already. */
  lemma WroteOld(sb: Super, s: Fs, i: nat, bn: nat)
    requires Inv(sb, s) && i < |s.nodes| && bn < s.nodes[i].ext
    ensures |s.nodes[i].addrs| == NDIRECT + 1 && bn < INDIRECT
    ensures WroteLog(sb, s.owner, s.owner, i, s.nodes[i].ext, s.nodes[i].ext, bn, bn + 1)
            == {At(s.blocks, s.nodes[i], bn)}
  {
    OwnerFacts(sb, s, i);
    var b := At(s.blocks, s.nodes[i], bn);
    assert bn < MAXFILE by { assert Shape(sb, s.blocks, s.nodes[i]); }
    assert Used(s.nodes[i], bn);
    hide Inv, At;
    assert DataAt(s.owner, i, bn, bn + 1) == {b};
    assert NewKeys(s.owner, s.owner) == {};
  }

  /** Block bn is b, which is new; the indirect block is as it was. */
  lemma WroteNew(sb: Super, o: Owner, i: nat, bn: nat, b: nat)
    requires b !in o && bn < INDIRECT && forall x :: x in o ==> o[x] != (i, bn)
    ensures Grows(o, o[b := (i, bn)], i, bn, bn + 1)
    ensures WroteLog(sb, o, o[b := (i, bn)], i, bn, bn + 1, bn, bn + 1)
         == {b, BBlock(sb, b)} + (if bn + 1 > NDIRECT then IndAt(o, i) else {})
  {
    var p := o[b := (i, bn)];
    assert DataAt(p, i, bn, bn + 1) == {b};
    assert NewKeys(o, p) == {b};
    assert IndAt(p, i) == IndAt(o, i);
  }

  /** Block bn is b and the indirect block is ib, and both are new. */
  lemma WroteNewBoth(sb: Super, o: Owner, i: nat, bn: nat, ib: nat, b: nat)
    requires ib !in o && b !in o && b != ib && NDIRECT <= bn < INDIRECT
    requires forall x :: x in o ==> o[x] != (i, bn) && o[x] != (i, INDIRECT)
    ensures var p := o[ib := (i, INDIRECT)][b := (i, bn)];
            && Grows(o, p, i, bn, bn + 1)
            && WroteLog(sb, o, p, i, bn, bn + 1, bn, bn + 1)
                 == {b, ib, BBlock(sb, b), BBlock(sb, ib)}
  {
    var p := o[ib := (i, INDIRECT)][b := (i, bn)];
    assert DataAt(p, i, bn, bn + 1) == {b};
    assert NewKeys(o, p) == {b, ib};
    assert IndAt(p, i) == {ib};
  }

  // ---------- how many blocks that is ----------

  /** The regions of a disk with n inodes, as mkfs lays them out. */
  predicate Layout(sb: Super, n: nat) {
    && sb.inodestart + n / IPB + 1 <= sb.bmapstart
    && sb.bmapstart + sb.size / BPB + 1 <= sb.meta
  }

  ghost predicate HasPos(o: Owner, i: nat, pos: nat) {
    exists x :: x in o && o[x] == (i, pos)
  }

  lemma {:induction false} DataSize(o: Owner, i: nat, lo: nat, hi: nat)
    requires lo <= hi && forall x, y :: x in o && y in o && o[x] == o[y] ==> x == y
    requires forall pos: nat :: pos < hi ==> HasPos(o, i, pos)
    ensures |DataAt(o, i, lo, hi)| == hi - lo
    decreases hi
  {
    if lo < hi {
      DataSize(o, i, lo, hi - 1);
      assert HasPos(o, i, hi - 1);
      var b :| b in o && o[b] == (i, hi - 1);
      assert DataAt(o, i, lo, hi) == DataAt(o, i, lo, hi - 1) + {b};
    } else {
      assert DataAt(o, i, lo, hi) == {};
    }
  }

  lemma DataCount(sb: Super, s: Fs, i: nat, lo: nat, hi: nat)
    requires Inv(sb, s) && i < |s.nodes| && lo <= hi <= s.nodes[i].ext
    ensures |DataAt(s.owner, i, lo, hi)| == hi - lo
  {
    OwnerFacts(sb, s, i);
    assert s.nodes[i].ext <= MAXFILE by { assert Shape(sb, s.blocks, s.nodes[i]); }
    hide Inv, At;
    forall pos: nat | pos < hi ensures HasPos(s.owner, i, pos) {
      assert Used(s.nodes[i], pos);
    }
    DataSize(s.owner, i, lo, hi);
  }

  lemma MapCount(sb: Super, xs: set<nat>)
    ensures |MapBlocks(sb, xs)| <= |xs|
    decreases |xs|
  {
    if x :| x in xs {
      MapCount(sb, xs - {x});
      MapBlocksBoth(sb, xs - {x}, {x});
      assert xs - {x} + {x} == xs && MapBlocks(sb, {x}) == {BBlock(sb, x)};
      UnionSize(MapBlocks(sb, xs - {x}), {BBlock(sb, x)});
    } else {
      assert MapBlocks(sb, xs) == {};
    }
  }

  lemma UnionSize(a: set<nat>, b: set<nat>)
    ensures |a + b| <= |a| + |b|
    ensures a !! b ==> |a + b| == |a| + |b|
  {
    assert a + b == a + (b - a);
    assert |a + (b - a)| == |a| + |b - a|;
    SubsetSize(b - a, b);
    if a !! b { assert b - a == b; }
  }

  lemma IndSize(o: Owner, i: nat, e: nat)
    requires OwnerOk(o, i, e)
    ensures |IndAt(o, i)| <= 1 && (e > NDIRECT ==> |IndAt(o, i)| == 1)
  {
    if x :| x in IndAt(o, i) {
      assert IndAt(o, i) == {x};
    }
  }

  /** New blocks in the bitmap are new blocks of inodes. */
  lemma KeysAreBits(sb: Super, s: Fs, t: Fs)
    requires Inv(sb, s) && Inv(sb, t) && forall x :: x in s.owner ==> x in t.owner
    ensures NewKeys(s.owner, t.owner) == NewBits(s.bits, t.bits)
  {
    forall x | x in t.owner ensures sb.meta <= x < sb.size {
      assert OwnedBy(t.blocks, t.nodes, x, t.owner[x].0, t.owner[x].1);
    }
    forall x | x in s.owner ensures sb.meta <= x < sb.size {
      assert OwnedBy(s.blocks, s.nodes, x, s.owner[x].0, s.owner[x].1);
    }
  }

  // ---------- nothing changes unlogged ----------

  /** The blocks and bits in which s and t differ are in blocks that have been logged. */
  ghost predicate Only(sb: Super, s: Fs, t: Fs, logged: set<nat>) {
    && |t.blocks| == |s.blocks| && |t.bits| == |s.bits|
    && (forall b: nat :: b < |s.blocks| && t.blocks[b] != s.blocks[b] ==> b in logged)
    && (forall b: nat :: b < |s.bits| && t.bits[b] != s.bits[b] ==> BBlock(sb, b) in logged)
  }

  lemma OnlyBoth(sb: Super, s: Fs, u: Fs, t: Fs, l: set<nat>, logged: set<nat>)
    requires Only(sb, s, u, l) && Only(sb, u, t, logged) && l <= logged
    ensures Only(sb, s, t, logged)
  {
  }

  lemma OnlyMore(sb: Super, s: Fs, t: Fs, l: set<nat>, logged: set<nat>)
    requires Only(sb, s, t, l) && l <= logged
    ensures Only(sb, s, t, logged)
  {
  }

  lemma TookEnough(a: seq<bool>, b: seq<bool>, k: nat)
    requires TookLowest(a, b, k)
    ensures FreeCount(a) >= k
  {
  }

  // ---------- the account of a write ----------

  /** Blocks that a file takes in going from n to e data blocks. */
  function BlocksTaken(n: Node, e: nat): nat {
    (if e > n.ext then e - n.ext else 0) + if e > NDIRECT && !n.ind then 1 else 0
  }

  /** From s to t, inode i's data blocks lo up to hi were written: exactly these blocks were
      taken and logged, and nothing else changed. */
  ghost predicate Accounted(sb: Super, s: Fs, t: Fs, i: nat, before: set<nat>, logged: set<nat>, lo: nat, hi: nat) {
    && i < |s.nodes| == |t.nodes|
    && Grows(s.owner, t.owner, i, s.nodes[i].ext, t.nodes[i].ext)
    && logged == before + WroteLog(sb, s.owner, t.owner, i, s.nodes[i].ext, t.nodes[i].ext, lo, hi)
    && TookLowest(s.bits, t.bits, BlocksTaken(s.nodes[i], t.nodes[i].ext))
    && Only(sb, s, t, logged)
  }

  lemma TakenBoth(a: Node, b: Node, e: nat)
    requires a.ext <= b.ext <= e && (b.ind <==> a.ind || b.ext > NDIRECT)
    ensures BlocksTaken(a, e) == BlocksTaken(a, b.ext) + BlocksTaken(b, e)
  {
  }

  lemma AccountedBoth(sb: Super, s: Fs, u: Fs, t: Fs, i: nat, before: set<nat>, l: set<nat>, logged: set<nat>,
                      lo: nat, hi: nat)
    requires Inv(sb, u) && Inv(sb, t)
    requires Accounted(sb, s, u, i, before, l, lo, hi) && Accounted(sb, u, t, i, l, logged, hi, hi + 1)
    requires u.nodes[i].ind <==> s.nodes[i].ind || u.nodes[i].ext > NDIRECT
    requires lo <= hi <= u.nodes[i].ext && hi < INDIRECT
    ensures Accounted(sb, s, t, i, before, logged, lo, hi + 1)
  {
    OwnerFacts(sb, u, i);
    OwnerFacts(sb, t, i);
    hide Inv, At;
    var e0, e1, e2 := s.nodes[i].ext, u.nodes[i].ext, t.nodes[i].ext;
    WroteBoth(sb, s.owner, u.owner, t.owner, i, e0, e1, e2, lo, hi);
    GrowsBoth(s.owner, u.owner, t.owner, i, e0, e1, e2);
    OnlyBoth(sb, s, u, t, l, logged);
    TakenBoth(s.nodes[i], u.nodes[i], e2);
    TookBoth(s.bits, u.bits, t.bits, BlocksTaken(s.nodes[i], e1), BlocksTaken(u.nodes[i], e2));
    hide Only, TookLowest, WroteLog, Grows, OwnerOk;
  }

  lemma AccountedNone(sb: Super, s: Fs, i: nat, logged: set<nat>, lo: nat)
    requires i < |s.nodes| && (s.nodes[i].ext > NDIRECT ==> s.nodes[i].ind)
    ensures Accounted(sb, s, s, i, logged, logged, lo, lo)
  {
    WroteNone(sb, s.owner, i, s.nodes[i].ext, lo);
  }

  /** Position pos of inode i is nobody's. */
  lemma NoPos(sb: Super, s: Fs, i: nat, pos: nat)
    requires Inv(sb, s) && i < |s.nodes| && pos <= INDIRECT && !Used(s.nodes[i], pos)
    ensures forall x :: x in s.owner ==> s.owner[x] != (i, pos)
  {
    forall x | x in s.owner ensures s.owner[x] != (i, pos) {
      assert OwnedBy(s.blocks, s.nodes, x, s.owner[x].0, s.owner[x].1);
    }
  }

  lemma IndIs(sb: Super, s: Fs, i: nat)
    requires Inv(sb, s) && i < |s.nodes| && s.nodes[i].ind
    ensures |s.nodes[i].addrs| == NDIRECT + 1 && IndAt(s.owner, i) == {s.nodes[i].addrs[NDIRECT]}
  {
    OwnerFacts(sb, s, i);
    assert Used(s.nodes[i], INDIRECT) && At(s.blocks, s.nodes[i], INDIRECT) == s.nodes[i].addrs[NDIRECT];
    hide Inv;
    var b := s.nodes[i].addrs[NDIRECT];
    assert b in IndAt(s.owner, i);
    assert forall x :: x in IndAt(s.owner, i) ==> x == b;
  }

  /** Going from s to u took inode i's indirect block ib, unless it was there. */
  ghost predicate TookIndirect(sb: Super, s: Fs, u: Fs, i: nat, before: set<nat>, l: set<nat>, ib: nat) {
    && Inv(sb, s) && Inv(sb, u) && i < |s.nodes| == |u.nodes| && OthersSame(sb, s, u, i)
    && u.nodes[i].ind && u.nodes[i].ext == s.nodes[i].ext && |u.nodes[i].addrs| == NDIRECT + 1
    && ib == u.nodes[i].addrs[NDIRECT]
    && Data(sb, u.blocks, u.nodes[i]) == Data(sb, s.blocks, s.nodes[i])
    && (s.nodes[i].ind ==> u == s && l == before)
    && (!s.nodes[i].ind ==>
          && ib !in s.owner && u.owner == s.owner[ib := (i, INDIRECT)] && TookLowest(s.bits, u.bits, 1)
          && l == before + {BBlock(sb, ib), ib} && Only(sb, s, u, l))
  }

  /** Going from u to t took inode i's next data block b, which its indirect block ib names. */
  ghost predicate TookEntry(sb: Super, u: Fs, t: Fs, i: nat, l: set<nat>, logged: set<nat>, ib: nat, b: nat) {
    && GrewOne(sb, u, t, i) && b !in u.owner && t.owner == u.owner[b := (i, u.nodes[i].ext)]
    && TookLowest(u.bits, t.bits, 1) && logged == l + {BBlock(sb, b), b, ib} && Only(sb, u, t, logged)
  }

  lemma FreeOneLess(a: seq<bool>, b: seq<bool>)
    requires TookLowest(a, b, 1) && FreeCount(b) == 0
    ensures FreeCount(a) == 1
  {
  }

  /** A direct block taken. */
  lemma DirectAccounted(sb: Super, s: Fs, i: nat, b: nat, before: set<nat>)
    requires Inv(sb, s) && IsFree(sb, s, b) && i < |s.nodes| && |s.nodes[i].addrs| == NDIRECT + 1
             && s.nodes[i].ext < NDIRECT
    requires b < |s.blocks| && TookLowest(s.bits, s.bits[b := true], 1)
    ensures var t := NewDirect(s, i, b);
            Accounted(sb, s, t, i, before, before + {BBlock(sb, b), b}, s.nodes[i].ext, s.nodes[i].ext + 1)
  {
    FreeUnowned(sb, s, b);
    NoPos(sb, s, i, s.nodes[i].ext);
    hide Inv, TookLowest, WroteLog, Grows, FreeCount;
    WroteNew(sb, s.owner, i, s.nodes[i].ext, b);
    var t := NewDirect(s, i, b);
    assert Only(sb, s, t, before + {BBlock(sb, b), b});
    assert before + {BBlock(sb, b), b} == before + ({b, BBlock(sb, b)} + {});
  }

  /** A block named in the indirect block taken, and that block before it if need be. */
  lemma EntryAccounted(sb: Super, s: Fs, u: Fs, t: Fs, i: nat, before: set<nat>, l: set<nat>, logged: set<nat>,
                       ib: nat, b: nat)
    requires TookIndirect(sb, s, u, i, before, l, ib) && TookEntry(sb, u, t, i, l, logged, ib, b)
    requires NDIRECT <= s.nodes[i].ext < MAXFILE
    ensures GrewOne(sb, s, t, i)
    ensures Accounted(sb, s, t, i, before, logged, s.nodes[i].ext, s.nodes[i].ext + 1)
  {
    hide Inv, GrewOne, OthersSame, Data, TookLowest, WroteLog, Grows, FreeCount, Only, At;
    var bn := s.nodes[i].ext;
    EntryGrewBoth(sb, s, u, t, i, before, l, logged, ib, b);
    if s.nodes[i].ind {
      IndIs(sb, s, i);
      WroteNew(sb, s.owner, i, bn, b);
    } else {
      WroteNewBoth(sb, s.owner, i, bn, ib, b);
      TookBoth(s.bits, u.bits, t.bits, 1, 1);
      hide BBlock;
      assert before + {BBlock(sb, ib), ib} + {BBlock(sb, b), b, ib} == before + {b, ib, BBlock(sb, b), BBlock(sb, ib)};
      assert BlocksTaken(s.nodes[i], bn + 1) == 2;
      assert Grows(s.owner, t.owner, i, bn, bn + 1);
      assert TookLowest(s.bits, t.bits, 2);
    }
  }

  lemma EntryGrewBoth(sb: Super, s: Fs, u: Fs, t: Fs, i: nat, before: set<nat>, l: set<nat>, logged: set<nat>,
                      ib: nat, b: nat)
    requires TookIndirect(sb, s, u, i, before, l, ib) && TookEntry(sb, u, t, i, l, logged, ib, b)
    requires NDIRECT <= s.nodes[i].ext < MAXFILE
    ensures GrewOne(sb, s, t, i) && Only(sb, s, t, logged)
    ensures |t.nodes| == |s.nodes| && t.nodes[i].ext == s.nodes[i].ext + 1
    ensures forall x :: x in s.owner ==> s.owner[x] != (i, s.nodes[i].ext)
    ensures !s.nodes[i].ind ==> forall x :: x in s.owner ==> s.owner[x] != (i, INDIRECT)
    ensures Inv(sb, s)
  {
    IndirectThenEntry(sb, s, u, t, i);
    OnlyBothOr(sb, s, u, t, l, logged);
    NoPos(sb, s, i, s.nodes[i].ext);
    if !s.nodes[i].ind { NoPos(sb, s, i, INDIRECT); }
    hide Inv, Data, OthersSame, TookLowest, Only;
  }

  lemma OnlyBothOr(sb: Super, s: Fs, u: Fs, t: Fs, l: set<nat>, logged: set<nat>)
    requires (s == u || Only(sb, s, u, l)) && Only(sb, u, t, logged) && l <= logged
    ensures Only(sb, s, t, logged)
  {
  }

  /** Then the block is written, or one that was there already. */
  lemma WriteAccounted(sb: Super, s: Fs, u: Fs, i: nat, bn: nat, x: Block, before: set<nat>, l: set<nat>)
    requires Inv(sb, s) && Inv(sb, u) && i < |s.nodes| && bn < INDIRECT
    requires i < |u.nodes| && bn < u.nodes[i].ext && |u.nodes[i].addrs| == NDIRECT + 1
    requires At(u.blocks, u.nodes[i], bn) < |u.blocks|
    requires if bn < s.nodes[i].ext then u == s && l == before else Accounted(sb, s, u, i, before, l, bn, bn + 1)
    ensures var a := At(u.blocks, u.nodes[i], bn);
            Accounted(sb, s, WriteBlock(u, i, bn, x), i, before, l + {a}, bn, bn + 1)
  {
    var a, t := At(u.blocks, u.nodes[i], bn), WriteBlock(u, i, bn, x);
    OwnerFacts(sb, u, i);
    assert Used(u.nodes[i], bn);
    assert a in DataAt(u.owner, i, bn, bn + 1);
    if bn < s.nodes[i].ext {
      WroteOld(sb, s, i, bn);
      TookNone(s.bits);
      ShapeOf(sb, s, i);
    }
    hide Inv, TookLowest, Grows, FreeCount, At;
    assert Only(sb, u, t, l + {a});
    assert bn >= s.nodes[i].ext ==> l + {a} == l;
  }

  // ---------- truncation ----------

  lemma FreedNothing(sb: Super, bits: seq<bool>)
    ensures MapBlocks(sb, NewBits(bits, bits)) == {}
  {
  }

  /** What is about to be freed was in use to begin with. */
  lemma FreedWas(s: Fs, bits: seq<bool>, i: nat, pos: nat, b: nat)
    requires FreedUpto(s, bits, i, pos) && b < |bits| && bits[b]
    ensures |s.bits| == |bits| && s.bits[b]
  {
  }

  lemma FreedMore(sb: Super, bits: seq<bool>, was: seq<bool>, b: nat)
    requires b < |bits| == |was| && bits[b] && was[b]
    ensures MapBlocks(sb, NewBits(bits[b := false], was)) == MapBlocks(sb, NewBits(bits, was)) + {BBlock(sb, b)}
  {
    MapBlocksBoth(sb, NewBits(bits, was), {b});
    assert NewBits(bits[b := false], was) == NewBits(bits, was) + {b};
    assert MapBlocks(sb, {b}) == {BBlock(sb, b)};
  }

  /** There are only so many bitmap blocks. */
  lemma MapsBound(sb: Super, xs: set<nat>)
    requires forall x :: x in xs ==> x < sb.size
    ensures |MapBlocks(sb, xs)| <= sb.size / BPB + 1
  {
    var lo, hi := sb.bmapstart, sb.bmapstart + sb.size / BPB + 1;
    RangeIs(lo, hi);
    RangeSize(lo, hi);
    SubsetSize(MapBlocks(sb, xs), Range(lo, hi));
  }
}
