/**
 How high the blocks in use can lie (fs.c, mkfs.c): balloc takes the lowest free block, so
 in every run they lie below what all inodes can ever hold. So a truncation's log is bounded
 by the number of inodes, however large the disk.
*/
module FsReach {
  import opened Common
  import opened FsLog
  import opened FsModel
  import opened FileSystem

  /** The blocks before meta, and as many as n inodes can hold. */
  function Ceiling(sb: Super, n: nat): nat {
    sb.meta + n * (MAXFILE + 1)
  }

  ghost function InUse(bits: seq<bool>): set<nat> {
    set b: nat | b < |bits| && bits[b]
  }

  ghost predicate Low(bits: seq<bool>, hi: nat) {
    forall b :: 0 <= b < |bits| && bits[b] ==> b < hi
  }

  lemma OneOwner(sb: Super, s: Fs, x: nat, y: nat)
    requires Inv(sb, s) && x in s.owner && y in s.owner
    ensures s.owner[x].0 < |s.nodes| && s.owner[x].1 <= INDIRECT
    ensures s.owner[x] == s.owner[y] ==> x == y
  {
    assert OwnedBy(s.blocks, s.nodes, x, s.owner[x].0, s.owner[x].1);
    assert OwnedBy(s.blocks, s.nodes, y, s.owner[y].0, s.owner[y].1);
  }

  lemma OwnersCount(sb: Super, s: Fs)
    requires Inv(sb, s)
    ensures |s.owner| <= |s.nodes| * (MAXFILE + 1)
  {
    RangeIs(0, |s.nodes|);
    RangeSize(0, |s.nodes|);
    hide Inv, Range;
    forall x, y | x in s.owner && y in s.owner
      ensures s.owner[x].0 in Range(0, |s.nodes|) && s.owner[x].1 < MAXFILE + 1 && (s.owner[x] == s.owner[y] ==> x == y)
    {
      OneOwner(sb, s, x, y);
    }
    PlacedCount(s.owner, Range(0, |s.nodes|), MAXFILE + 1);
  }

  /** No more blocks are in use than metadata and what all inodes can hold. */
  lemma UseCount(sb: Super, s: Fs)
    requires Inv(sb, s)
    ensures |InUse(s.bits)| <= Ceiling(sb, |s.nodes|)
  {
    OwnersCount(sb, s);
    RangeIs(0, sb.meta);
    RangeSize(0, sb.meta);
    UseIs(sb, s);
    hide Inv, Range, InUse;
    UnionSize(Range(0, sb.meta), s.owner.Keys);
    SubsetSize(InUse(s.bits), Range(0, sb.meta) + s.owner.Keys);
  }

  lemma UseIs(sb: Super, s: Fs)
    requires Inv(sb, s)
    ensures InUse(s.bits) <= Range(0, sb.meta) + s.owner.Keys
  {
    RangeIs(0, sb.meta);
  }

  /** Taking the lowest free blocks does not rise above hi while no more than hi are in use. */
  lemma TookLow(a: seq<bool>, b: seq<bool>, k: nat, hi: nat)
    requires TookLowest(a, b, k) && Low(a, hi) && |InUse(b)| <= hi
    ensures Low(b, hi)
  {
    forall x | 0 <= x < |b| && b[x] ensures x < hi {
      if x >= hi {
        RangeIs(0, x + 1);
        RangeSize(0, x + 1);
        SubsetSize(Range(0, x + 1), InUse(b));
      }
    }
  }

  lemma ActLow(sb: Super, a: Version, b: Version, logged: set<nat>, hi: nat)
    requires Act(sb, a, b, logged) && Low(a.s.bits, hi) && hi == Ceiling(sb, |a.d|)
    ensures Low(b.s.bits, hi) && |b.d| == |a.d|
  {
    hide Inv, Ceiling, Synced, WriteLog, MapBlocks, NewBits, TookLowest;
    if i: nat, off: nat, n: nat :| WriteAct(sb, a, b, i, off, n, logged) {
      UseCount(sb, b.s);
      TookLow(a.s.bits, b.s.bits, BlocksTaken(a.s.nodes[i], b.s.nodes[i].ext), hi);
    }
  }

  /** In every run the blocks in use lie below what all inodes can hold. */
  lemma {:induction false} TrailLow(sb: Super, past: seq<Version>, ops: seq<set<nat>>, k: nat)
    requires Trail(sb, past, ops) && k <= |ops|
    ensures |past[k].d| == |past[0].d| && Low(past[k].s.bits, Ceiling(sb, |past[0].d|))
    decreases k
  {
    if k == 0 {
      hide Inv, Synced;
    } else {
      TrailLow(sb, past, ops, k - 1);
      hide Act, Low, Ceiling, Fresh;
      ActLow(sb, past[k - 1], past[k], ops[k - 1], Ceiling(sb, |past[0].d|));
    }
  }

  /** So no truncation in a run logs more than the bitmap blocks below that, and the inode. */
  lemma TruncReach(sb: Super, past: seq<Version>, ops: seq<set<nat>>, k: nat, i: nat)
    requires Trail(sb, past, ops) && k < |ops| && TruncAct(sb, past[k], past[k + 1], i, ops[k])
    requires Ceiling(sb, |past[0].d|) > 0
    ensures |ops[k]| <= (Ceiling(sb, |past[0].d|) - 1) / BPB + 2
    ensures Ceiling(sb, |past[0].d|) <= (MAXOPBLOCKS - 1) * BPB ==> |ops[k]| <= MAXOPBLOCKS
  {
    hide Act, Fresh, Ceiling, Truncate, Low, NewBits, MapBlocks;
    var hi := Ceiling(sb, |past[0].d|);
    TrailLow(sb, past, ops, k);
    var freed := NewBits(past[k + 1].s.bits, past[k].s.bits);
    FreedLow(past[k + 1].s.bits, past[k].s.bits, hi);
    MapsBelow(sb, freed, hi);
    UnionSize(MapBlocks(sb, freed), {IBlock(sb, i)});
  }

  lemma FreedLow(b: seq<bool>, a: seq<bool>, hi: nat)
    requires Low(a, hi)
    ensures forall x :: x in NewBits(b, a) ==> x < hi
  {
  }

  lemma MapsBelow(sb: Super, xs: set<nat>, hi: nat)
    requires hi > 0 && forall x :: x in xs ==> x < hi
    ensures |MapBlocks(sb, xs)| <= (hi - 1) / BPB + 1
  {
    var lo, top := sb.bmapstart, sb.bmapstart + (hi - 1) / BPB + 1;
    RangeIs(lo, top);
    RangeSize(lo, top);
    SubsetSize(MapBlocks(sb, xs), Range(lo, top));
  }

  /** With mkfs's 200 inodes every truncation is within its reservation, on any disk whose
      metadata take no more than 8664 blocks. */
  lemma TruncFits(sb: Super, past: seq<Version>, ops: seq<set<nat>>, k: nat, i: nat)
    requires Trail(sb, past, ops) && k < |ops| && TruncAct(sb, past[k], past[k + 1], i, ops[k])
    requires |past[0].d| == 200 && 0 < sb.meta <= 8664
    ensures |ops[k]| <= MAXOPBLOCKS
  {
    hide Trail, TruncAct;
    TruncReach(sb, past, ops, k, i);
  }
}
