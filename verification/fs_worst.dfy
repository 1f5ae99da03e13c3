/**
 Two runs of the file system from the disk that mkfs makes. One ends in a chunk of filewrite
 that logs MAXOPBLOCKS blocks: the bound of file.c is met. The other, on a larger disk with
 more inodes, ends in a truncation that logs one more than that.
*/
module FsWorst {
  import opened Common
  import opened FsLog
  import opened FsModel
  import opened FileSystem
  import opened File

  /** mkfs's layout, for a disk of 20480 blocks, of which six are bitmap. */
  const SB: Super := Super(20480, 3264, 3232, 3258)
  const NINODES: nat := 200

  /** And for one of 45056 blocks, of which twelve are bitmap, with 300 inodes. */
  const BIGSB: Super := Super(45056, 3282, 3232, 3270)
  const BIGINODES: nat := 300

  // ---------- a disk that fills up from below ----------

  /** Exactly the first n blocks are in use. */
  ghost predicate Prefix(bits: seq<bool>, n: nat) {
    n <= |bits| && forall b :: 0 <= b < |bits| ==> (bits[b] <==> b < n)
  }

  lemma PrefixFree(bits: seq<bool>, n: nat)
    requires Prefix(bits, n)
    ensures FreeCount(bits) == |bits| - n
  {
    RangeIs(n, |bits|);
    RangeSize(n, |bits|);
    assert FreeSet(bits) == Range(n, |bits|);
  }

  /** Where the blocks in use end, when none is free below another. */
  lemma EndOf(bits: seq<bool>, lo: nat) returns (n: nat)
    requires lo <= |bits| && forall b :: 0 <= b < lo ==> bits[b]
    requires forall x, y :: lo <= y < x < |bits| && bits[x] ==> bits[y]
    ensures lo <= n && Prefix(bits, n)
  {
    n := lo;
    while n < |bits| && bits[n]
      invariant lo <= n <= |bits| && forall b :: 0 <= b < n ==> bits[b]
    {
      n := n + 1;
    }
  }

  lemma PrefixTook(a: seq<bool>, b: seq<bool>, n: nat, k: nat)
    requires Prefix(a, n) && TookLowest(a, b, k)
    ensures Prefix(b, n + k)
  {
    var m := EndOf(b, n);
    PrefixFree(a, n);
    PrefixFree(b, m);
  }

  // ---------- whose blocks they are ----------

  ghost predicate NoneOf(o: Owner, i: nat) {
    forall x :: x in o ==> o[x].0 != i
  }

  /** Inode i has just block p. */
  ghost predicate JustOne(o: Owner, i: nat, p: nat) {
    p in o && forall x :: x in o ==> (o[x].0 == i <==> x == p)
  }

  /** A file of one block, written on a disk that is full up to n. */
  lemma OneBlock(sb: Super, s: Fs, t: Fs, i: nat, n: nat)
    requires Inv(sb, s) && Inv(sb, t) && Prefix(s.bits, n) && Prefix(t.bits, n + 1)
    requires Grows(s.owner, t.owner, i, 0, 1) && NoneOf(s.owner, i)
    ensures JustOne(t.owner, i, n)
  {
    KeysAreBits(sb, s, t);
    hide Inv;
    assert NewBits(s.bits, t.bits) == {n};
    assert n in NewKeys(s.owner, t.owner);
    forall x | x in t.owner ensures t.owner[x].0 == i <==> x == n {
      assert x !in s.owner ==> x in NewKeys(s.owner, t.owner);
    }
  }

  lemma StillOthers(a: Owner, b: Owner, i: nat, e0: nat, e: nat, j: nat, p: nat)
    requires Grows(a, b, i, e0, e) && j != i
    ensures NoneOf(a, j) ==> NoneOf(b, j)
    ensures JustOne(a, j, p) ==> JustOne(b, j, p)
  {
  }

  /** Truncating a file of one block frees that block. */
  lemma HoleAt(s: Fs, i: nat, p: nat)
    requires i < |s.nodes| && JustOne(s.owner, i, p) && p < |s.bits|
    ensures Truncate(s, i).bits == s.bits[p := false]
    ensures forall j, q :: j != i && JustOne(s.owner, j, q) ==> JustOne(Truncate(s, i).owner, j, q)
  {
  }

  /** The four lowest free blocks, when p1, p2, p3 are free below n. */
  lemma TookFour(a: seq<bool>, b: seq<bool>, p1: nat, p2: nat, p3: nat, n: nat)
    requires p1 < p2 < p3 < n < |a| && TookLowest(a, b, 4)
    requires forall x :: 0 <= x < |a| ==> (a[x] <==> x < n && x != p1 && x != p2 && x != p3)
    ensures NewBits(a, b) == {p1, p2, p3, n}
  {
    var t := NewBits(a, b);
    TookCount(a, b, 4);
    hide FreeCount;
    if n !in t {
      assert t <= {p1, p2, p3};
      SubsetSize(t, {p1, p2, p3});
    }
    assert {p1, p2, p3, n} <= t;
    SubsetSize(t - {p1, p2, p3, n}, t);
    assert |t - {p1, p2, p3, n}| == 0;
  }

  function Zeros(n: nat): (z: seq<Byte>)
    ensures |z| == n
  {
    seq(n, _ => 0)
  }

  // ---------- the run ----------

  /** The operations so far have led here from a fresh disk. */
  ghost predicate Recorded(fs: FileSystem)
    reads fs
  {
    Trail(fs.sb, fs.past, fs.ops) && fs.past[|fs.ops|] == fs.Now()
  }

  /** So do they once a write, or a truncation, has been recorded. */
  lemma RecordWrite(fs: FileSystem, past: seq<Version>, ops: seq<set<nat>>, i: nat, off: nat, n: nat)
    requires Trail(fs.sb, past, ops) && Sound(fs.sb, past[|ops|]) && fs.Valid() && fs.AllSynced()
    requires WriteAct(fs.sb, past[|ops|], fs.Now(), i, off, n, fs.logged)
    ensures Trail(fs.sb, past + [fs.Now()], ops + [fs.logged])
  {
    hide Fresh, WriteAct, TruncAct, Inv, Synced;
    assert Act(fs.sb, past[|ops|], fs.Now(), fs.logged);
    hide Act;
    TrailMore(fs.sb, past, ops, fs.Now(), fs.logged);
  }

  lemma RecordTrunc(fs: FileSystem, past: seq<Version>, ops: seq<set<nat>>, i: nat)
    requires Trail(fs.sb, past, ops) && Sound(fs.sb, past[|ops|]) && fs.Valid() && fs.AllSynced()
    requires TruncAct(fs.sb, past[|ops|], fs.Now(), i, fs.logged)
    ensures Trail(fs.sb, past + [fs.Now()], ops + [fs.logged])
  {
    hide Fresh, WriteAct, TruncAct, Inv, Synced;
    assert Act(fs.sb, past[|ops|], fs.Now(), fs.logged);
    hide Act;
    TrailMore(fs.sb, past, ops, fs.Now(), fs.logged);
  }

  /** What the runs keep track of. */
  ghost predicate On(fs: FileSystem, n: nat)
    reads fs
  {
    fs.Valid() && fs.AllSynced() && |fs.nodes| == |fs.dinodes| && Prefix(fs.bits, n) && Recorded(fs)
  }

  /** size bytes at the end of file i, in a transaction of its own. */
  method Fill(fs: FileSystem, i: nat, off: nat, size: nat, ghost n: nat)
    requires On(fs, n) && i < |fs.nodes| && fs.dinodes[i].size == off
    requires 0 < size && off + size <= MAXFILE * BSIZE && n + BlocksFor(off + size) <= fs.sb.size + BlocksFor(off)
    modifies fs
    ensures BlocksFor(off) <= BlocksFor(off + size)
    ensures On(fs, n + BlocksFor(off + size) - BlocksFor(off))
    ensures |fs.nodes| == |fs.dinodes| == |old(fs.dinodes)|
    ensures fs.dinodes == old(fs.dinodes)[i := fs.dinodes[i]] && fs.dinodes[i].size == off + size
    ensures Grows(old(fs.owner), fs.owner, i, Blocks(off), Blocks(off + size))
    ensures TookLowest(old(fs.bits), fs.bits, BlocksFor(off + size) - BlocksFor(off))
  {
    hide Inv, BlocksFor, Splice, FilesOf, FreeCount, TookLowest, Grows, Act, Fresh, WriteAct, Synced,
         FileSystem.WroteAll;
    ghost var was, past, ops := fs.Now(), fs.past, fs.ops;
    PrefixFree(fs.bits, n);
    BitCount(fs);
    MoreFor(off, size);
    var ip := new Inode(i, fs.dinodes[i]);
    SyncedAt(fs, i);
    fs.FileSize(i);
    fs.BeginOp();
    var r := fs.Writei(ip, Zeros(size), off);
    FillDid(fs, was, i, off, size);
    RecordWrite(fs, past, ops, i, off, size);
    fs.EndOp();
    PrefixTook(was.s.bits, fs.bits, n, BlocksFor(off + size) - BlocksFor(off));
  }

  lemma FillDid(fs: FileSystem, was: Version, i: nat, off: nat, size: nat)
    requires fs.WroteAll(was.s, was.d, {}, i, off, size) && was.d[i].size == off
    ensures WriteAct(fs.sb, was, fs.Now(), i, off, size, fs.logged)
    ensures fs.dinodes == was.d[i := fs.dinodes[i]] && BlocksFor(off) <= BlocksFor(off + size)
    ensures Grows(was.s.owner, fs.owner, i, Blocks(off), Blocks(off + size))
    ensures TookLowest(was.s.bits, fs.bits, BlocksFor(off + size) - BlocksFor(off))
  {
    WriteIsOp(fs, was, i, off, size);
    hide Inv, OpDid, WriteLog, Only, BlocksFor, TookLowest, Grows;
    MoreFor(off, size);
    TakenIs(was.s.nodes[i], off, off + size);
  }

  lemma MoreFor(off: nat, size: nat)
    ensures BlocksFor(off) <= BlocksFor(off + size)
  {
  }

  lemma BitCount(fs: FileSystem)
    requires fs.Valid()
    ensures |fs.bits| == fs.sb.size
  {
  }

  lemma SyncedAt(fs: FileSystem, i: nat)
    requires fs.Valid() && fs.AllSynced() && i < |fs.nodes|
    ensures Synced(fs.dinodes[i], fs.nodes[i])
  {
  }

  /** No block has changed hands. */
  ghost predicate Kept(a: Owner, b: Owner) {
    forall x :: x in a ==> x in b && b[x] == a[x]
  }

  lemma KeptSame(a: Owner)
    ensures Kept(a, a)
  {
  }

  lemma KeptMore(a: Owner, b: Owner, c: Owner, i: nat, e0: nat, e: nat)
    requires Kept(a, b) && Grows(b, c, i, e0, e)
    ensures Kept(a, c)
  {
  }

  /** What inodes below i have stays so when inode f gains its first blocks. */
  lemma StillBelow(a: Owner, b: Owner, f: nat, i: nat)
    requires Grows(a, b, f, 0, Blocks(MAXFILE * BSIZE)) && i <= f
    ensures forall j :: 0 <= j < i && NoneOf(a, j) ==> NoneOf(b, j)
    ensures forall j, p :: 0 <= j < i && JustOne(a, j, p) ==> JustOne(b, j, p)
  {
    hide Grows, NoneOf, JustOne;
    forall j | 0 <= j < i ensures NoneOf(a, j) ==> NoneOf(b, j) {
      StillOthers(a, b, f, 0, Blocks(MAXFILE * BSIZE), j, 0);
    }
    forall j, p | 0 <= j < i && JustOne(a, j, p) ensures JustOne(b, j, p) {
      StillOthers(a, b, f, 0, Blocks(MAXFILE * BSIZE), j, p);
    }
  }

  /** A file of the largest size. */
  method FillBig(fs: FileSystem, i: nat, ghost n: nat)
    requires On(fs, n) && i < |fs.nodes| && fs.dinodes[i].size == 0 && n + 141 <= fs.sb.size
    modifies fs
    ensures On(fs, n + 141) && |fs.nodes| == |fs.dinodes| == |old(fs.dinodes)|
    ensures fs.dinodes == old(fs.dinodes)[i := fs.dinodes[i]]
    ensures Grows(old(fs.owner), fs.owner, i, 0, Blocks(MAXFILE * BSIZE))
  {
    Sizes();
    hide On, Grows, TookLowest, BlocksFor;
    Fill(fs, i, 0, MAXFILE * BSIZE, n);
  }

  /** k files of the largest size, from inode i on. */
  method FillMany(fs: FileSystem, i: nat, k: nat, ghost n: nat)
    requires On(fs, n) && i + k <= |fs.nodes| && n + 141 * k <= fs.sb.size
    requires forall j :: i <= j < |fs.dinodes| ==> fs.dinodes[j].size == 0
    modifies fs
    ensures Kept(old(fs.owner), fs.owner)
    ensures On(fs, n + 141 * k) && |fs.nodes| == |fs.dinodes| == |old(fs.dinodes)|
    ensures fs.dinodes[..i] == old(fs.dinodes)[..i] && forall j :: i + k <= j < |fs.dinodes| ==> fs.dinodes[j].size == 0
    ensures forall j :: 0 <= j < i && NoneOf(old(fs.owner), j) ==> NoneOf(fs.owner, j)
    ensures forall j, p :: 0 <= j < i && JustOne(old(fs.owner), j, p) ==> JustOne(fs.owner, j, p)
  {
    assert |fs.dinodes| == |fs.nodes|;
    hide On, Grows, NoneOf, JustOne, Kept, Blocks;
    KeptSame(fs.owner);
    var c := 0;
    while c < k
      invariant c <= k && On(fs, n + 141 * c) && |fs.nodes| == |fs.dinodes| == |old(fs.dinodes)|
      invariant fs.dinodes[..i] == old(fs.dinodes)[..i] && forall j :: i + c <= j < |fs.dinodes| ==>
                fs.dinodes[j].size == 0
      invariant forall j :: 0 <= j < i && NoneOf(old(fs.owner), j) ==> NoneOf(fs.owner, j)
      invariant forall j, p :: 0 <= j < i && JustOne(old(fs.owner), j, p) ==> JustOne(fs.owner, j, p)
      invariant Kept(old(fs.owner), fs.owner)
    {
      ghost var o := fs.owner;
      FillBig(fs, i + c, n + 141 * c);
      StillBelow(o, fs.owner, i + c, i);
      KeptMore(old(fs.owner), o, fs.owner, i + c, 0, Blocks(MAXFILE * BSIZE));
      c := c + 1;
    }
  }

  /** itrunc, in a transaction of its own. */
  method Empties(fs: FileSystem, ip: Inode)
    requires fs.Valid() && fs.AllSynced() && fs.Holds(ip) && Recorded(fs)
    modifies fs, ip
    ensures fs.Valid() && fs.AllSynced() && |fs.nodes| == |old(fs.nodes)| && Recorded(fs)
    ensures TruncAct(fs.sb, old(fs.Now()), fs.Now(), ip.inum, fs.logged)
    ensures fs.ops == old(fs.ops) + [fs.logged] && fs.past == old(fs.past) + [fs.Now()]
  {
    hide Inv, FilesOf, MapBlocks, NewBits, Truncate, Act, Fresh, Synced;
    ghost var past, ops := fs.past, fs.ops;
    fs.BeginOp();
    fs.Itrunc(ip);
    AloneSet(fs.logged, MapBlocks(fs.sb, NewBits(fs.bits, past[|ops|].s.bits)) + {IBlock(fs.sb, ip.inum)},
             MapBlocks(fs.sb, NewBits(fs.bits, past[|ops|].s.bits)), {IBlock(fs.sb, ip.inum)});
    assert TruncAct(fs.sb, past[|ops|], fs.Now(), ip.inum, fs.logged);
    RecordTrunc(fs, past, ops, ip.inum);
    fs.EndOp();
  }

  lemma AloneSet(logged: set<nat>, both: set<nat>, a: set<nat>, b: set<nat>)
    requires logged == {} + a + b && both == a + b
    ensures logged == both
  {
  }

  /** The file of one block at p is emptied, in a transaction of its own. */
  method Punch(fs: FileSystem, i: nat, ghost p: nat)
    requires fs.Valid() && fs.AllSynced() && i < |fs.nodes| && JustOne(fs.owner, i, p) && p < |fs.bits| && Recorded(fs)
    modifies fs
    ensures fs.Valid() && fs.AllSynced() && |fs.nodes| == |old(fs.nodes)| && Recorded(fs)
    ensures fs.bits == old(fs.bits)[p := false] && fs.dinodes == old(fs.dinodes)[i := fs.dinodes[i]]
    ensures forall j, q :: j != i && JustOne(old(fs.owner), j, q) ==> JustOne(fs.owner, j, q)
  {
    hide Inv, FilesOf, JustOne, MapBlocks, NewBits, Act, Fresh;
    HoleAt(fs.S(), i, p);
    hide Truncate;
    var ip := new Inode(i, fs.dinodes[i]);
    SyncedAt(fs, i);
    Empties(fs, ip);
  }

  /** Where inode j's single block is, for j from 1 to 3; 4 is the first free block. */
  function P(j: nat): nat
    requires 1 <= j <= 4
  {
    3276 + 4090 * (j - 1)
  }

  /** Twelve blocks, the last of them begun. */
  const SIZE: nat := 11 * BSIZE + 1

  /** Inode 0 has SIZE bytes, 1 up to m a byte each, and inodes up to next have what else is
      below n. */
  ghost predicate Stage(fs: FileSystem, n: nat, m: nat, next: nat)
    reads fs
  {
    && On(fs, n) && fs.sb == SB && |fs.nodes| == |fs.dinodes| == NINODES && fs.dinodes[0].size == SIZE && 4 <= next
    && (forall j :: 1 <= j < 4 && j <= m ==> JustOne(fs.owner, j, P(j)))
    && (forall j :: 1 <= j < 4 && j > m ==> NoneOf(fs.owner, j) && fs.dinodes[j].size == 0)
    && (forall j :: next <= j < NINODES ==> fs.dinodes[j].size == 0)
  }

  lemma Sizes()
    ensures BlocksFor(SIZE) == 12 && BlocksFor(1) == 1 && BlocksFor(MAXFILE * BSIZE) == 141
    ensures Blocks(0) == 0 && BlocksFor(0) == 0 && Blocks(1) == 1 && BlocksFor(Max(SIZE, SIZE + CHUNK)) == 16
            && SIZE % BSIZE != 0
  {
  }

  /** A one-byte file for inode i, at block n. */
  method FillOne(fs: FileSystem, i: nat, ghost n: nat)
    requires On(fs, n) && i < |fs.nodes| && fs.dinodes[i].size == 0 && n < fs.sb.size && NoneOf(fs.owner, i)
    modifies fs
    ensures On(fs, n + 1) && |fs.nodes| == |fs.dinodes| == |old(fs.dinodes)|
            && fs.dinodes == old(fs.dinodes)[i := fs.dinodes[i]]
    ensures JustOne(fs.owner, i, n)
    ensures forall j :: j != i && NoneOf(old(fs.owner), j) ==> NoneOf(fs.owner, j)
    ensures forall j, p :: j != i && JustOne(old(fs.owner), j, p) ==> JustOne(fs.owner, j, p)
  {
    ghost var s := fs.S();
    hide Inv, Grows, NoneOf, JustOne;
    Sizes();
    Fill(fs, i, 0, 1, n);
    OneBlock(fs.sb, s, fs.S(), i, n);
    forall j | j != i ensures NoneOf(s.owner, j) ==> NoneOf(fs.owner, j) {
      StillOthers(s.owner, fs.owner, i, 0, 1, j, 0);
    }
    forall j, p | j != i && JustOne(s.owner, j, p) ensures JustOne(fs.owner, j, p) {
      StillOthers(s.owner, fs.owner, i, 0, 1, j, p);
    }
  }

  /** The next one-byte file, and 29 of the largest behind it. */
  method NextPart(fs: FileSystem, m: nat, next: nat)
    requires m < 3 && next + 29 <= NINODES && Stage(fs, P(m + 1), m, next)
    modifies fs
    ensures Stage(fs, P(m + 2), m + 1, next + 29)
  {
    hide On, Grows, NoneOf, JustOne;
    FillOne(fs, m + 1, P(m + 1));
    ghost var d, o := fs.dinodes, fs.owner;
    FillMany(fs, next, 29, P(m + 1) + 1);
    assert P(m + 1) + 1 + 141 * 29 == P(m + 2);
    forall j | 0 <= j < 4 ensures fs.dinodes[j] == d[j] {
      assert fs.dinodes[..next][j] == d[..next][j];
    }
    forall j | 1 <= j < 4 ensures if j <= m + 1 then JustOne(fs.owner, j, P(j)) else NoneOf(fs.owner, j) {
      assert if j <= m + 1 then JustOne(o, j, P(j)) else NoneOf(o, j);
    }
  }

  method FirstPart() returns (fs: FileSystem)
    ensures Stage(fs, P(1), 0, 4) && fresh(fs)
  {
    fs := new FileSystem(SB, NINODES);
    assert On(fs, 3264);
    assert forall j :: 0 <= j < 4 ==> NoneOf(fs.owner, j);
    hide On, Grows, NoneOf, JustOne;
    Sizes();
    ghost var o := fs.owner;
    Fill(fs, 0, 0, SIZE, 3264);
    forall j | 0 < j < 4 ensures NoneOf(fs.owner, j) { StillOthers(o, fs.owner, 0, 0, Blocks(SIZE), j, 0); }
  }

  method MakeFull() returns (fs: FileSystem)
    ensures Stage(fs, P(4), 3, 91) && fresh(fs)
  {
    hide Stage, P;
    fs := FirstPart();
    NextPart(fs, 0, 4);
    NextPart(fs, 1, 33);
    NextPart(fs, 2, 62);
  }

  lemma MapOne(x: nat)
    ensures MapBlocks(SB, {x}) == {BBlock(SB, x)}
  {
  }

  lemma FourSize(a: nat, b: nat, c: nat, d: nat)
    requires a < b < c < d
    ensures |{a} + {b} + {c} + {d}| == 4
  {
  }

  /** The three holes and the first block past the end are under four bitmap blocks. */
  lemma FourMaps()
    ensures |MapBlocks(SB, {P(1), P(2), P(3), P(4)})| == 4
  {
    assert BBlock(SB, P(1)) < BBlock(SB, P(2)) < BBlock(SB, P(3)) < BBlock(SB, P(4));
    hide MapBlocks, BBlock, P;
    MapBlocksBoth(SB, {P(1)}, {P(2)});
    MapBlocksBoth(SB, {P(1)} + {P(2)}, {P(3)});
    MapBlocksBoth(SB, {P(1)} + {P(2)} + {P(3)}, {P(4)});
    assert {P(1)} + {P(2)} + {P(3)} + {P(4)} == {P(1), P(2), P(3), P(4)};
    MapOne(P(1));
    MapOne(P(2));
    MapOne(P(3));
    MapOne(P(4));
    FourSize(BBlock(SB, P(1)), BBlock(SB, P(2)), BBlock(SB, P(3)), BBlock(SB, P(4)));
  }

  /** Four blocks are free below or at P(4), and more after it. */
  ghost predicate Holed(fs: FileSystem)
    reads fs
  {
    && fs.sb == SB && fs.Valid() && fs.AllSynced() && |fs.nodes| == |fs.dinodes| == NINODES && Recorded(fs)
    && fs.dinodes[0].size == SIZE
    && |fs.bits| == SB.size
    && forall x :: 0 <= x < |fs.bits| ==> (fs.bits[x] <==> x < P(4) && x != P(1) && x != P(2) && x != P(3))
  }

  lemma FullFacts(fs: FileSystem)
    requires Stage(fs, P(4), 3, 91)
    ensures fs.sb == SB && fs.Valid() && fs.AllSynced() && |fs.nodes| == |fs.dinodes| == NINODES && Recorded(fs)
    ensures fs.dinodes[0].size == SIZE && |fs.bits| == SB.size
    ensures JustOne(fs.owner, 1, P(1)) && JustOne(fs.owner, 2, P(2)) && JustOne(fs.owner, 3, P(3))
    ensures forall x :: 0 <= x < |fs.bits| ==> (fs.bits[x] <==> x < P(4))
  {
    hide Inv, JustOne, NoneOf;
    BitCount(fs);
  }

  method MakeHoles() returns (fs: FileSystem)
    ensures Holed(fs) && fresh(fs)
  {
    hide Inv, Stage, JustOne, NoneOf, Synced;
    fs := MakeFull();
    FullFacts(fs);
    Punch(fs, 1, P(1));
    Punch(fs, 2, P(2));
    Punch(fs, 3, P(3));
  }

  lemma EnoughFree(bits: seq<bool>)
    requires |bits| == SB.size && forall x :: 0 <= x < |bits| ==>
             (bits[x] <==> x < P(4) && x != P(1) && x != P(2) && x != P(3))
    ensures FreeCount(bits) >= 4
  {
    SubsetSize({P(1), P(2), P(3), P(4)}, FreeSet(bits));
  }

  /** What the chunk does to such a disk. */
  lemma WorstChunk(s: Fs, t: Fs)
    requires WroteFile(SB, s, t, 0, SIZE, CHUNK, SIZE) && |s.nodes| == NINODES && |s.bits| == SB.size
    requires forall x :: 0 <= x < |s.bits| ==> (s.bits[x] <==> x < P(4) && x != P(1) && x != P(2) && x != P(3))
    ensures |WriteLog(SB, s.owner, t.owner, 0, SIZE, CHUNK, SIZE)| == MAXOPBLOCKS
  {
    assert Layout(SB, NINODES);
    hide Inv, BlocksFor, WriteLog, MapBlocks, NewBits, Layout;
    Sizes();
    TakenIs(s.nodes[0], SIZE, SIZE + CHUNK);
    assert TookLowest(s.bits, t.bits, 4);
    TookFour(s.bits, t.bits, P(1), P(2), P(3), P(4));
    FourMaps();
    FullChunkCosts(SB, s, t, 0, SIZE, SIZE);
  }

  lemma WroteWorst(was: Version, now: Version, logged: set<nat>)
    requires WriteAct(SB, was, now, 0, SIZE, CHUNK, logged) && was.d[0].size == SIZE
    requires |was.s.nodes| == NINODES && |was.s.bits| == SB.size
    requires forall x :: 0 <= x < |was.s.bits| ==>
             (was.s.bits[x] <==> x < P(4) && x != P(1) && x != P(2) && x != P(3))
    ensures |logged| == MAXOPBLOCKS
  {
    hide WroteFile, WriteLog, P;
    WorstChunk(was.s, now.s);
  }

  /** The chunk: four data blocks, four bitmap blocks, the indirect block and the inode. The
      operations before it have led to its disk from mkfs's, each logging what it must. */
  method Worst() returns (fs: FileSystem, ghost was: Version)
    ensures fs.sb == SB && |was.d| == NINODES
    ensures Trail(SB, fs.past, fs.ops) && |fs.ops| > 0 && fs.past[|fs.ops|] == fs.Now()
    ensures fs.past[|fs.ops| - 1] == was && fs.ops[|fs.ops| - 1] == fs.logged
    ensures WriteAct(SB, was, fs.Now(), 0, SIZE, CHUNK, fs.logged) && was.d[0].size == SIZE
    ensures |fs.logged| == MAXOPBLOCKS
  {
    fs := MakeHoles();
    hide Inv, FilesOf, FreeCount, BlocksFor, WriteLog, Splice, P, Synced, Act, Fresh, WriteAct, GoodOp;
    fs.FileSize(0);
    EnoughFree(fs.bits);
    Sizes();
    was := fs.Now();
    ghost var past, ops := fs.past, fs.ops;
    var f := new OpenFile(0);
    f.off := SIZE;
    var r := f.WriteChunk(fs, Zeros(CHUNK));
    WroteWorst(was, fs.Now(), fs.logged);
    RecordWrite(fs, past, ops, 0, SIZE, CHUNK);
  }

  // ---------- a file under ten bitmap blocks ----------

  /** Where block j of the file is. */
  function Q(j: nat): nat {
    BIGSB.meta + 4090 * j
  }

  /** The first k blocks of inode 0's file are there. */
  ghost predicate HasUpto(o: Owner, k: nat) {
    forall j: nat :: j < k ==> OfZero(o, Q(j))
  }

  ghost predicate OfZero(o: Owner, x: nat) {
    x in o && o[x].0 == 0
  }

  /** Inode 0 has k blocks, and inodes from 1 up to next have what else is below Q(k). */
  ghost predicate Spread(fs: FileSystem, k: nat, next: nat)
    reads fs
  {
    && On(fs, Q(k)) && fs.sb == BIGSB && |fs.nodes| == |fs.dinodes| == BIGINODES && 1 <= next
    && fs.dinodes[0].size == k * BSIZE && HasUpto(fs.owner, k)
    && forall j :: next <= j < BIGINODES ==> fs.dinodes[j].size == 0
  }

  lemma OneFor(k: nat)
    requires k < NDIRECT
    ensures BlocksFor(k * BSIZE + BSIZE) - BlocksFor(k * BSIZE) == 1 && BlocksFor(k * BSIZE) <= k
    ensures k * BSIZE + BSIZE <= MAXFILE * BSIZE
  {
  }

  /** Block n is the one that the file has gained. */
  lemma NextIsZeros(sb: Super, s: Fs, t: Fs, n: nat, e: nat)
    requires Inv(sb, s) && Inv(sb, t) && Prefix(s.bits, n) && Prefix(t.bits, n + 1)
             && Grows(s.owner, t.owner, 0, e, e + 1)
    ensures OfZero(t.owner, n)
  {
    KeysAreBits(sb, s, t);
    hide Inv;
    assert n in NewBits(s.bits, t.bits);
  }

  lemma HasNext(a: Owner, b: Owner, k: nat)
    requires HasUpto(a, k) && Kept(a, b) && OfZero(b, Q(k))
    ensures HasUpto(b, k + 1)
  {
    forall j: nat | j < k + 1 ensures OfZero(b, Q(j)) {
      assert j < k ==> OfZero(a, Q(j));
    }
  }

  lemma HasStill(a: Owner, b: Owner, k: nat)
    requires HasUpto(a, k) && Kept(a, b)
    ensures HasUpto(b, k)
  {
    forall j: nat | j < k ensures OfZero(b, Q(j)) { assert OfZero(a, Q(j)); }
  }

  /** One more block of inode 0's file, at Q(k). */
  method OneMore(fs: FileSystem, k: nat, next: nat)
    requires k < 10 && next <= BIGINODES && Spread(fs, k, next)
    modifies fs
    ensures On(fs, Q(k) + 1) && fs.sb == BIGSB && |fs.nodes| == |fs.dinodes| == BIGINODES
    ensures fs.dinodes[0].size == (k + 1) * BSIZE && HasUpto(fs.owner, k + 1)
    ensures forall j :: next <= j < BIGINODES ==> fs.dinodes[j].size == 0
  {
    hide On, HasUpto, OfZero, BlocksFor, Blocks, Grows, Q, TookLowest;
    ghost var s := fs.S();
    OneFor(k);
    OneExt(k);
    BitsBelow(fs, k);
    OnIs(fs, Q(k));
    Fill(fs, 0, k * BSIZE, BSIZE, Q(k));
    OneMoreIs(fs, s, k);
    KeptMore(s.owner, s.owner, fs.owner, 0, k, k + 1) by { KeptSame(s.owner); }
    HasNext(s.owner, fs.owner, k);
  }

  lemma OneExt(k: nat)
    requires k < NDIRECT
    ensures Blocks(k * BSIZE) == k && Blocks(k * BSIZE + BSIZE) == k + 1
  {
  }

  lemma BitsBelow(fs: FileSystem, k: nat)
    requires k < 10 && fs.sb == BIGSB
    ensures Q(k) + 4091 <= fs.sb.size
  {
  }

  lemma OneMoreIs(fs: FileSystem, s: Fs, k: nat)
    requires Inv(fs.sb, s) && Prefix(s.bits, Q(k)) && On(fs, Q(k) + 1) && Grows(s.owner, fs.owner, 0, k, k + 1)
    ensures OfZero(fs.owner, Q(k))
  {
    hide Inv, Grows, Recorded;
    NextIsZeros(fs.sb, s, fs.S(), Q(k), k);
  }

  method BigDisk() returns (fs: FileSystem)
    ensures Spread(fs, 0, 1) && fresh(fs)
  {
    hide Trail;
    fs := new FileSystem(BIGSB, BIGINODES);
  }

  /** Nine blocks, each with 29 of the largest files behind it, and the tenth. */
  method TenBlocks() returns (fs: FileSystem)
    ensures fresh(fs) && fs.Valid() && fs.AllSynced() && fs.sb == BIGSB && |fs.nodes| == BIGINODES && Recorded(fs)
    ensures HasUpto(fs.owner, 10)
  {
    hide On, HasUpto, Kept, Q;
    fs := BigDisk();
    var k, next := 0, 1;
    while k < 9
      invariant k <= 9 && next == 1 + 29 * k && Spread(fs, k, next) && fresh(fs)
    {
      OneMore(fs, k, next);
      ghost var o, d := fs.owner, fs.dinodes;
      BitsBelow(fs, k);
      FillMany(fs, next, 29, Q(k) + 1);
      NextQ(k);
      HasStill(o, fs.owner, k + 1);
      assert fs.dinodes[0] == fs.dinodes[..next][0] == d[..next][0] == d[0];
      k, next := k + 1, next + 29;
    }
    OneMore(fs, 9, next);
    OnIs(fs, Q(9) + 1);
  }

  lemma NextQ(k: nat)
    ensures Q(k) + 1 + 141 * 29 == Q(k + 1)
  {
  }

  lemma OnIs(fs: FileSystem, n: nat)
    requires On(fs, n)
    ensures fs.Valid() && fs.AllSynced() && Recorded(fs) && Inv(fs.sb, fs.S()) && Prefix(fs.bits, n)
  {
  }

  /** The ten blocks are under ten bitmap blocks. */
  lemma TenMaps(s: Fs)
    requires HasUpto(s.owner, 10)
    ensures |MapBlocks(BIGSB, FileBlocks(s, 0))| >= 10
  {
    var maps, ten := MapBlocks(BIGSB, FileBlocks(s, 0)), Range(BIGSB.bmapstart, BIGSB.bmapstart + 10);
    RangeIs(BIGSB.bmapstart, BIGSB.bmapstart + 10);
    RangeSize(BIGSB.bmapstart, BIGSB.bmapstart + 10);
    forall x | x in ten ensures x in maps {
      var j: nat := x - BIGSB.bmapstart;
      assert OfZero(s.owner, Q(j));
      assert BBlock(BIGSB, Q(j)) == x;
    }
    SubsetSize(ten, maps);
  }

  /** Truncating that file logs more than an operation may. */
  method WorstTruncation() returns (fs: FileSystem, ghost was: Version)
    ensures fs.sb == BIGSB && |was.d| == BIGINODES
    ensures Trail(BIGSB, fs.past, fs.ops) && |fs.ops| > 0 && fs.past[|fs.ops|] == fs.Now()
    ensures fs.past[|fs.ops| - 1] == was && fs.ops[|fs.ops| - 1] == fs.logged
    ensures TruncAct(BIGSB, was, fs.Now(), 0, fs.logged)
    ensures |fs.logged| > MAXOPBLOCKS
  {
    hide Inv, FilesOf, Act, Fresh, HasUpto, MapBlocks, NewBits, Truncate, Synced;
    fs := TenBlocks();
    was := fs.Now();
    SyncedAt(fs, 0);
    var ip := new Inode(0, fs.dinodes[0]);
    Empties(fs, ip);
    TenMaps(was.s);
    assert Layout(BIGSB, BIGINODES);
    TruncCosts(BIGSB, was.s, 0);
  }
}
