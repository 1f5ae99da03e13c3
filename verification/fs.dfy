/**
 Block allocation and file contents: balloc, bfree, bmap, itrunc, readi, writei and
 iupdate of fs.c, over the disk as seen through the cache.
 The bitmap's bits, the on-disk inodes and the data blocks are separate fields.
*/
module FileSystem {
  import opened Common
  import opened FsLog
  import opened FsModel

  lemma Add32Wraps(a: nat, b: nat)
    requires a < WRAP && b < WRAP
    ensures if a + b < WRAP then Add32(a, b) == a + b else Add32(a, b) < a
  {
  }

  datatype Dinode = Dinode(size: nat, addrs: seq<nat>)

  /** Stopped stands for a panic: the kernel takes no further step. */
  datatype Outcome = Stopped | Ret(r: int)

  /** Data blocks that size bytes take. */
  function Blocks(size: nat): nat {
    (size + BSIZE - 1) / BSIZE
  }

  /** The inode on disk describes the file in memory, and the file has no holes. */
  ghost predicate Synced(d: Dinode, n: Node) {
    d.size <= MAXFILE * BSIZE && n == Node(d.addrs, Blocks(d.size), Blocks(d.size) > NDIRECT)
  }

  /** Blocks that n bytes from off lie in. */
  function Touched(off: nat, n: nat): nat {
    if n == 0 then 0 else (off + n - 1) / BSIZE - off / BSIZE + 1
  }

  /** All the blocks that a file of size bytes takes. */
  function BlocksFor(size: nat): nat {
    Blocks(size) + if Blocks(size) > NDIRECT then 1 else 0
  }

  /** Where the blocks end that the first n bytes of a write at off reach. */
  function Reaches(off: nat, n: nat): nat {
    if n == 0 then off / BSIZE else Blocks(off + n)
  }

  /** What writei logs: what its rounds log, and the inode if the file grows. */
  ghost function WriteLog(sb: Super, a: Owner, b: Owner, i: nat, off: nat, n: nat, size: nat): set<nat> {
    WroteLog(sb, a, b, i, Blocks(size), Blocks(Max(size, off + n)), off / BSIZE, Reaches(off, n))
    + if n > 0 && off + n > size then {IBlock(sb, i)} else {}
  }

  /** A bound on how many blocks that is, for any file: the data blocks, a bitmap block for
      each new one and for a new indirect block, that block, the inode. */
  function LogCost(off: nat, n: nat): nat {
    Touched(off, n) + (Blocks(off + n) - Blocks(off)) + 3
  }

  /** filewrite's chunk: the largest that it passes to writei. */
  const CHUNK: nat := ((MAXOPBLOCKS - 1 - 1 - 2) / 2) * 512

  /** A chunk fits in one operation's reservation, wherever it starts ... */
  lemma ChunkFits(off: nat, n: nat)
    requires n <= CHUNK
    ensures LogCost(off, n) <= MAXOPBLOCKS
  {
    assert off == off / BSIZE * BSIZE + off % BSIZE;
  }

  function Max(a: nat, b: nat): nat {
    if a < b then b else a
  }

  /** All the bytes of inode i's blocks. */
  ghost function Whole(sb: Super, s: Fs, i: nat): seq<Byte>
    requires Inv(sb, s) && i < |s.nodes|
  {
    Flat(Data(sb, s.blocks, s.nodes[i]))
  }

  /** The bytes of inode i's file, of size bytes. */
  ghost function Content(sb: Super, s: Fs, i: nat, size: nat): seq<Byte>
    requires Inv(sb, s) && i < |s.nodes|
  {
    var flat := Flat(Data(sb, s.blocks, s.nodes[i]));
    if size <= |flat| then flat[..size] else flat
  }

  ghost function FilesOf(sb: Super, s: Fs, d: seq<Dinode>): (f: seq<seq<Byte>>)
    requires Inv(sb, s) && |d| == |s.nodes|
    ensures |f| == |s.nodes|
    ensures forall i :: 0 <= i < |f| ==> f[i] == Content(sb, s, i, d[i].size)
  {
    seq(|s.nodes|, i requires 0 <= i < |s.nodes| => Content(sb, s, i, d[i].size))
  }

  // ---------- writei, round by round ----------

  /** After tot bytes: s0's file i has src[..tot] at off, and is as long as that needs. */
  ghost predicate Writing(sb: Super, s0: Fs, s: Fs, i: nat, off: nat, src: seq<Byte>, tot: nat) {
    && Inv(sb, s0) && Inv(sb, s) && i < |s0.nodes| && OthersSame(sb, s0, s, i)
    && s.nodes[i].ext == Max(s0.nodes[i].ext, Blocks(off + tot))
    && (s0.nodes[i].ind <==> s0.nodes[i].ext > NDIRECT)
    && (s.nodes[i].ind <==> s.nodes[i].ext > NDIRECT)
    && (s.nodes[i].ext == s0.nodes[i].ext ==> s.nodes[i] == s0.nodes[i])
    && Written(Flat(Data(sb, s0.blocks, s0.nodes[i])), Flat(Data(sb, s.blocks, s.nodes[i])), off, src, tot)
  }

  lemma WritingStarts(sb: Super, s: Fs, i: nat, d: Dinode, off: nat, src: seq<Byte>)
    requires Inv(sb, s) && i < |s.nodes| && Synced(d, s.nodes[i]) && off <= d.size
    ensures Writing(sb, s, s, i, off, src, 0) && d.size <= |Flat(Data(sb, s.blocks, s.nodes[i]))|
  {
    FlatSize(Data(sb, s.blocks, s.nodes[i]));
    hide Inv, Data;
  }

  lemma RoundArith(off: nat, tot: nat, n: nat, ext: nat)
    requires tot < n && off + n <= MAXFILE * BSIZE && ext >= Blocks(off + tot)
    requires tot == 0 || (off + tot) % BSIZE == 0
    ensures var m := Min(n - tot, BSIZE - (off + tot) % BSIZE);
            && (off + tot) / BSIZE <= ext && (off + tot) / BSIZE < MAXFILE
            && 0 < m && (tot + m == n || (off + tot + m) % BSIZE == 0)
            && Blocks(off + tot + m) == (off + tot) / BSIZE + 1
            && Touched(off, tot + m) == Touched(off, tot) + 1
  {
    assert off == off / BSIZE * BSIZE + off % BSIZE;
  }

  /** Round tot of a write of n bytes at off: m bytes from byte o of block bn. */
  ghost predicate Round(off: nat, tot: nat, n: nat, bn: nat, o: nat, m: nat) {
    && tot < n && off + n <= MAXFILE * BSIZE && (tot == 0 || (off + tot) % BSIZE == 0)
    && bn == (off + tot) / BSIZE && o == (off + tot) % BSIZE
    && m == Min(n - tot, BSIZE - o)
  }

  lemma RoundExt(off: nat, tot: nat, n: nat, bn: nat, o: nat, m: nat, ext0: nat)
    requires Round(off, tot, n, bn, o, m)
    ensures var ext := Max(ext0, Blocks(off + tot));
            && bn <= ext && bn < MAXFILE && o + m <= BSIZE && tot + m <= n
            && Max(ext0, Blocks(off + tot + m)) == if bn < ext then ext else bn + 1
    ensures Touched(off, tot + m) == Touched(off, tot) + 1
    ensures tot + m == n || (off + tot + m) % BSIZE == 0
  {
    RoundArith(off, tot, n, Max(ext0, Blocks(off + tot)));
  }

  lemma RoundBytes(f0: seq<Byte>, d: seq<Block>, off: nat, src: seq<Byte>, tot: nat, bn: nat, o: nat, m: nat)
    requires Round(off, tot, |src|, bn, o, m) && Written(f0, Flat(d), off, src, tot) && bn <= |d|
    ensures o + m <= BSIZE && tot + m <= |src| && bn < |Reached(d, bn)|
    ensures Written(f0, Flat(Reached(d, bn)[bn := Patch(Reached(d, bn)[bn], o, src[tot..tot + m])]), off, src, tot + m)
  {
    WrittenMore(f0, d, off, src, tot, m);
  }

  lemma WritingRound(sb: Super, s0: Fs, s: Fs, t: Fs, i: nat, off: nat, src: seq<Byte>, tot: nat, bn: nat, o: nat,
                     m: nat)
    requires Writing(sb, s0, s, i, off, src, tot) && Inv(sb, t) && Round(off, tot, |src|, bn, o, m)
    requires bn <= s.nodes[i].ext && o + m <= BSIZE && tot + m <= |src|
    requires WroteOne(sb, s, t, i, bn, o, src[tot..tot + m])
    ensures Writing(sb, s0, t, i, off, src, tot + m)
  {
    ShapeOf(sb, s0, i);
    ShapeOf(sb, s, i);
    RoundExt(off, tot, |src|, bn, o, m, s0.nodes[i].ext);
    OthersStill(sb, s0, s, t, i);
    hide Inv, Shape, Upto, Written, Patch, Blocks, Touched, OthersSame, Round;
    RoundBytes(Flat(Data(sb, s0.blocks, s0.nodes[i])), Data(sb, s.blocks, s.nodes[i]), off, src, tot, bn, o, m);
  }

  lemma OthersStill(sb: Super, s0: Fs, s: Fs, t: Fs, i: nat)
    requires Inv(sb, s0) && Inv(sb, s) && Inv(sb, t) && OthersSame(sb, s0, s, i) && OthersSame(sb, s, t, i)
    ensures OthersSame(sb, s0, t, i)
  {
    hide Inv, Data;
  }

  lemma WroteExt(sb: Super, s: Fs, t: Fs, i: nat, bn: nat, o: nat, piece: seq<Byte>)
    requires Inv(sb, s) && Inv(sb, t) && i < |s.nodes| && bn <= s.nodes[i].ext && o + |piece| <= BSIZE
    requires WroteOne(sb, s, t, i, bn, o, piece)
    ensures |t.nodes| == |s.nodes| && t.nodes[i].ext == if bn < s.nodes[i].ext then s.nodes[i].ext else bn + 1
    ensures bn < s.nodes[i].ext ==> t.nodes == s.nodes
  {
    hide Inv, Data;
  }

  lemma SizedContent(sb: Super, s: Fs, i: nat, d: Dinode)
    requires Inv(sb, s) && i < |s.nodes| && Synced(d, s.nodes[i])
    ensures d.size <= |Flat(Data(sb, s.blocks, s.nodes[i]))|
    ensures Content(sb, s, i, d.size) == Flat(Data(sb, s.blocks, s.nodes[i]))[..d.size]
  {
    FlatSize(Data(sb, s.blocks, s.nodes[i]));
  }

  /** Up to n bytes of f from off. */
  function Slice(f: seq<Byte>, off: nat, n: nat): seq<Byte> {
    if off <= |f| then f[off..Min(off + n, |f|)] else []
  }

  lemma EmptySynced()
    ensures Synced(Dinode(0, Empty().addrs), Empty())
  {
  }

  lemma JoinSlices(f: seq<Byte>, a: nat, b: nat, c: nat)
    requires a <= b <= c <= |f|
    ensures f[a..b] + f[b..c] == f[a..c]
  {
  }

  lemma SliceIs(sb: Super, s: Fs, i: nat, d: Dinode, off: nat, n: nat)
    requires Inv(sb, s) && i < |s.nodes| && Synced(d, s.nodes[i]) && off <= d.size
    ensures var len := if off + n > d.size then d.size - off else n;
            && off + len <= |Whole(sb, s, i)|
            && Slice(Content(sb, s, i, d.size), off, n) == Whole(sb, s, i)[off..off + len]
  {
    SizedContent(sb, s, i, d);
  }

  lemma RoundReady(sb: Super, s0: Fs, s: Fs, i: nat, off: nat, src: seq<Byte>, tot: nat, bn: nat, o: nat, m: nat)
    requires Writing(sb, s0, s, i, off, src, tot) && Round(off, tot, |src|, bn, o, m)
    ensures bn <= s.nodes[i].ext && bn < MAXFILE && o + m <= BSIZE && tot + m <= |src|
    ensures Touched(off, tot + m) == Touched(off, tot) + 1
    ensures tot + m == |src| || (off + tot + m) % BSIZE == 0
  {
    hide Inv, Written, Data;
    RoundExt(off, tot, |src|, bn, o, m, s0.nodes[i].ext);
  }

  lemma DoneArith(off: nat, n: nat, size0: nat)
    requires off <= size0 && size0 <= MAXFILE * BSIZE && off + n <= MAXFILE * BSIZE
    ensures var size := if off + n > size0 then off + n else size0;
            && Max(Blocks(size0), Blocks(off + n)) == Blocks(size) && size <= BSIZE * Blocks(size)
            && size <= MAXFILE * BSIZE
    ensures size0 <= BSIZE * Blocks(size0)
    ensures Max(Blocks(size0), Blocks(off + n)) - Blocks(size0) <= Blocks(off + n) - Blocks(off)
  {
  }

  /** The inode goes to disk exactly when the file has grown, and that is enough to
      keep the disk's inode right. */
  lemma InodeDone(sb: Super, s0: Fs, s: Fs, i: nat, d0: Dinode, d: Dinode, off: nat, src: seq<Byte>)
    requires Writing(sb, s0, s, i, off, src, |src|) && Synced(d0, s0.nodes[i]) && off <= d0.size
    requires off + |src| <= MAXFILE * BSIZE && |s.nodes| == |s0.nodes|
    requires d == if off + |src| > d0.size then Dinode(off + |src|, s.nodes[i].addrs) else d0
    ensures Synced(d, s.nodes[i])
    ensures s.nodes[i].ext - s0.nodes[i].ext <= Blocks(off + |src|) - Blocks(off)
  {
    hide Inv, Data, Blocks, Written, Flat, OthersSame;
    DoneArith(off, |src|, d0.size);
  }

  /** The file when the loop is done. */
  lemma WritingDone(sb: Super, s0: Fs, s: Fs, i: nat, d0: Dinode, d: Dinode, off: nat, src: seq<Byte>)
    requires Writing(sb, s0, s, i, off, src, |src|) && Synced(d0, s0.nodes[i]) && off <= d0.size
    requires off + |src| <= MAXFILE * BSIZE && |s.nodes| == |s0.nodes|
    requires d == if off + |src| > d0.size then Dinode(off + |src|, s.nodes[i].addrs) else d0
    ensures Synced(d, s.nodes[i]) && OthersSame(sb, s0, s, i)
    ensures |Content(sb, s0, i, d0.size)| == d0.size
    ensures Content(sb, s, i, d.size) == Splice(Content(sb, s0, i, d0.size), off, src)
    ensures s.nodes[i].ext - s0.nodes[i].ext <= Blocks(off + |src|) - Blocks(off)
  {
    InodeDone(sb, s0, s, i, d0, d, off, src);
    SizedContent(sb, s0, i, d0);
    SizedContent(sb, s, i, d);
    hide Inv, Data, Blocks, Written, Splice, OthersSame, Synced, Content;
    WrittenAll(Flat(Data(sb, s0.blocks, s0.nodes[i])), Flat(Data(sb, s.blocks, s.nodes[i])), off, src, d0.size, d.size);
  }

  // ---------- what writei logs ----------

  lemma TakenIs(n: Node, size: nat, size': nat)
    requires n.ext == Blocks(size) && (n.ind <==> n.ext > NDIRECT) && size <= size'
    ensures BlocksFor(size') >= BlocksFor(size) && BlocksTaken(n, Blocks(size')) == BlocksFor(size') - BlocksFor(size)
  {
  }

  /** How many blocks a write logs when its new blocks are under maps bitmap blocks: the data
      blocks, those, the indirect block if one is named there, the inode if the file grows. */
  function WriteCost(off: nat, n: nat, size: nat, maps: nat): nat {
    if n == 0 then 0
    else Touched(off, n) + maps
         + (if Blocks(off + n) > Blocks(size) && Blocks(off + n) > NDIRECT then 1 else 0)
         + (if off + n > size then 1 else 0)
  }

  lemma CostBound(off: nat, n: nat, size: nat, maps: nat)
    requires off <= size && maps + BlocksFor(size) <= BlocksFor(Max(size, off + n))
    ensures WriteCost(off, n, size, maps) <= LogCost(off, n)
  {
  }

  /** A full chunk needs its whole reservation exactly when it is not aligned and takes
      blocks under four bitmap blocks. */
  lemma ChunkNeedsAll(off: nat, size: nat, maps: nat)
    requires off <= size && maps + BlocksFor(size) <= BlocksFor(Max(size, off + CHUNK))
    ensures WriteCost(off, CHUNK, size, maps) == MAXOPBLOCKS <==> off % BSIZE != 0 && maps == 4
  {
    assert off == off / BSIZE * BSIZE + off % BSIZE && size == size / BSIZE * BSIZE + size % BSIZE;
  }

  lemma ReachIs(off: nat, n: nat, size: nat)
    requires off <= size
    ensures off / BSIZE <= Reaches(off, n) && Reaches(off, n) - off / BSIZE == Touched(off, n)
    ensures n > 0 ==> Reaches(off, n) <= Blocks(Max(size, off + n))
    ensures n == 0 ==> Max(size, off + n) == size
    ensures Max(Blocks(size), Blocks(off + n)) == Blocks(Max(size, off + n))
  {
    assert off == off / BSIZE * BSIZE + off % BSIZE;
  }

  /** From s to t, writei put n bytes at off into inode i's file, which had size bytes. */
  ghost predicate WroteFile(sb: Super, s: Fs, t: Fs, i: nat, off: nat, n: nat, size: nat) {
    && Inv(sb, s) && Inv(sb, t) && i < |s.nodes| == |t.nodes| && off <= size
    && s.nodes[i].ext == Blocks(size) && (s.nodes[i].ind <==> s.nodes[i].ext > NDIRECT)
    && t.nodes[i].ext == Blocks(Max(size, off + n))
    && Grows(s.owner, t.owner, i, s.nodes[i].ext, t.nodes[i].ext)
    && TookLowest(s.bits, t.bits, BlocksTaken(s.nodes[i], t.nodes[i].ext))
  }

  /** The data blocks are there and are not metadata, nor is the indirect block. */
  lemma DataNotMeta(sb: Super, t: Fs, i: nat, lo: nat, hi: nat)
    requires Inv(sb, t) && i < |t.nodes|
    ensures forall x :: x in DataAt(t.owner, i, lo, hi) ==> x >= sb.meta
    ensures forall x :: x in IndAt(t.owner, i) ==> x >= sb.meta
  {
    forall x | x in t.owner ensures x >= sb.meta {
      assert OwnedBy(t.blocks, t.nodes, x, t.owner[x].0, t.owner[x].1);
    }
  }

  /** The data blocks and the indirect block of a write. */
  lemma DataLogged(sb: Super, s: Fs, t: Fs, i: nat, off: nat, n: nat, size: nat)
    requires WroteFile(sb, s, t, i, off, n, size) && n > 0
    ensures |DataAt(t.owner, i, off / BSIZE, Reaches(off, n))| == Touched(off, n)
    ensures DataAt(t.owner, i, off / BSIZE, Reaches(off, n)) !! IndAt(t.owner, i)
    ensures |IndAt(t.owner, i)| <= 1 && (t.nodes[i].ext > NDIRECT ==> |IndAt(t.owner, i)| == 1)
  {
    ReachIs(off, n, size);
    OwnerFacts(sb, t, i);
    DataCount(sb, t, i, off / BSIZE, Reaches(off, n));
    IndSize(t.owner, i, t.nodes[i].ext);
    assert t.nodes[i].ext <= MAXFILE by { ShapeOf(sb, t, i); }
  }

  /** Blocks from four different places: data from meta on, bitmap blocks from lo up to
      meta, inodes below lo. */
  lemma SizesAdd(data: set<nat>, maps: set<nat>, ind: set<nat>, inode: set<nat>, lo: nat, meta: nat)
    requires data !! ind && (forall x :: x in data || x in ind ==> x >= meta)
    requires (forall x :: x in maps ==> lo <= x < meta) && (forall x :: x in inode ==> x < lo <= meta)
    ensures |data + maps + ind + inode| == |data| + |maps| + |ind| + |inode|
  {
    UnionSize(data, maps);
    UnionSize(data + maps, ind);
    UnionSize(data + maps + ind, inode);
  }

  lemma SizesBound(data: set<nat>, maps: set<nat>, ind: set<nat>, inode: set<nat>)
    ensures |data + maps + ind + inode| <= |data| + |maps| + |ind| + |inode|
  {
    UnionSize(data, maps);
    UnionSize(data + maps, ind);
    UnionSize(data + maps + ind, inode);
  }

  /** The exact cost of a write, on a disk laid out in regions ... */
  lemma WriteCosts(sb: Super, s: Fs, t: Fs, i: nat, off: nat, n: nat, size: nat)
    requires WroteFile(sb, s, t, i, off, n, size) && Layout(sb, |s.nodes|)
    ensures |WriteLog(sb, s.owner, t.owner, i, off, n, size)|
         == WriteCost(off, n, size, |MapBlocks(sb, NewBits(s.bits, t.bits))|)
  {
    if n == 0 {
      ReachIs(off, n, size);
      KeysAreBits(sb, s, t);
      WroteNone(sb, s.owner, i, Blocks(size), off / BSIZE);
    } else {
      SomeCosts(sb, s, t, i, off, n, size);
    }
  }

  /** The four kinds of blocks that a write logs, and where they are. */
  lemma Pieces(sb: Super, s: Fs, t: Fs, i: nat, off: nat, n: nat, size: nat)
    requires WroteFile(sb, s, t, i, off, n, size) && Layout(sb, |s.nodes|) && n > 0
    ensures NewKeys(s.owner, t.owner) == NewBits(s.bits, t.bits)
    ensures var data := DataAt(t.owner, i, off / BSIZE, Reaches(off, n));
            && |data| == Touched(off, n) && data !! IndAt(t.owner, i)
            && forall x :: x in data || x in IndAt(t.owner, i) ==> x >= sb.meta
    ensures forall x :: x in MapBlocks(sb, NewBits(s.bits, t.bits)) ==> sb.bmapstart <= x < sb.meta
    ensures IBlock(sb, i) < sb.bmapstart <= sb.meta
    ensures Blocks(Max(size, off + n)) > NDIRECT ==> |IndAt(t.owner, i)| == 1
    ensures Max(Blocks(size), Blocks(off + n)) == Blocks(Max(size, off + n))
  {
    hide WroteFile, Inv, DataAt, IndAt, MapBlocks, NewKeys, NewBits, Layout, Blocks, Touched, Reaches, IBlock;
    FileFacts(sb, s, t, i, off, n, size);
    ReachIs(off, n, size);
    DataLogged(sb, s, t, i, off, n, size);
    DataNotMeta(sb, t, i, off / BSIZE, Reaches(off, n));
    InodesFirst(sb, |s.nodes|, i);
    MapsAreMeta(sb, NewBits(s.bits, t.bits));
  }

  lemma FileFacts(sb: Super, s: Fs, t: Fs, i: nat, off: nat, n: nat, size: nat)
    requires WroteFile(sb, s, t, i, off, n, size)
    ensures NewKeys(s.owner, t.owner) == NewBits(s.bits, t.bits)
    ensures forall x :: x in NewBits(s.bits, t.bits) ==> x < sb.size
    ensures Inv(sb, t) && i < |s.nodes| == |t.nodes| && off <= size && t.nodes[i].ext == Blocks(Max(size, off + n))
  {
    KeysAreBits(sb, s, t);
  }

  lemma SomeCosts(sb: Super, s: Fs, t: Fs, i: nat, off: nat, n: nat, size: nat)
    requires WroteFile(sb, s, t, i, off, n, size) && Layout(sb, |s.nodes|) && n > 0
    ensures |WriteLog(sb, s.owner, t.owner, i, off, n, size)|
         == WriteCost(off, n, size, |MapBlocks(sb, NewBits(s.bits, t.bits))|)
  {
    hide WroteFile, DataAt, IndAt, MapBlocks, NewBits, NewKeys, Layout, Blocks, Touched, Reaches, IBlock, WriteLog;
    Pieces(sb, s, t, i, off, n, size);
    var data, maps := DataAt(t.owner, i, off / BSIZE, Reaches(off, n)), MapBlocks(sb, NewBits(s.bits, t.bits));
    var e0, e := Blocks(size), Blocks(Max(size, off + n));
    var ind := if e > e0 && e > NDIRECT then IndAt(t.owner, i) else {};
    var inode := if off + n > size then {IBlock(sb, i)} else {};
    SizesAdd(data, maps, ind, inode, sb.bmapstart, sb.meta);
    WriteLogIs(sb, s.owner, t.owner, i, off, n, size, NewBits(s.bits, t.bits));
  }

  lemma InodesFirst(sb: Super, n: nat, i: nat)
    requires Layout(sb, n) && i < n
    ensures IBlock(sb, i) < sb.bmapstart && sb.bmapstart + sb.size / BPB < sb.meta
  {
  }

  lemma WriteLogIs(sb: Super, a: Owner, b: Owner, i: nat, off: nat, n: nat, size: nat, taken: set<nat>)
    requires n > 0 && NewKeys(a, b) == taken
    ensures WriteLog(sb, a, b, i, off, n, size)
         == DataAt(b, i, off / BSIZE, Reaches(off, n)) + MapBlocks(sb, taken)
            + (if Blocks(Max(size, off + n)) > Blocks(size) && Blocks(Max(size, off + n)) > NDIRECT
               then IndAt(b, i) else {})
            + (if off + n > size then {IBlock(sb, i)} else {})
  {
  }

  /** Bitmap blocks lie between the inodes and the data. */
  lemma MapsAreMeta(sb: Super, xs: set<nat>)
    requires forall x :: x in xs ==> x < sb.size
    ensures forall x :: x in MapBlocks(sb, xs) ==> sb.bmapstart <= x <= sb.bmapstart + sb.size / BPB
  {
  }

  /** ... and the bound, on any. */
  lemma WriteBound(sb: Super, s: Fs, t: Fs, i: nat, off: nat, n: nat, size: nat)
    requires WroteFile(sb, s, t, i, off, n, size)
    ensures |WriteLog(sb, s.owner, t.owner, i, off, n, size)| <= LogCost(off, n)
  {
    if n == 0 {
      ReachIs(off, n, size);
      KeysAreBits(sb, s, t);
      WroteNone(sb, s.owner, i, Blocks(size), off / BSIZE);
    } else {
      SomeBound(sb, s, t, i, off, n, size);
    }
  }

  lemma SomeBound(sb: Super, s: Fs, t: Fs, i: nat, off: nat, n: nat, size: nat)
    requires WroteFile(sb, s, t, i, off, n, size) && n > 0
    ensures |WriteLog(sb, s.owner, t.owner, i, off, n, size)| <= LogCost(off, n)
  {
    hide WroteFile, Inv, DataAt, IndAt, MapBlocks, NewBits, NewKeys, Blocks, Touched, Reaches, IBlock, WriteLog,
         LogCost, BlocksFor;
    FileFacts(sb, s, t, i, off, n, size);
    FileTook(sb, s, t, i, off, n, size);
    ReachIs(off, n, size);
    DataLogged(sb, s, t, i, off, n, size);
    MapCount(sb, NewBits(s.bits, t.bits));
    CostBound(off, n, size, |MapBlocks(sb, NewBits(s.bits, t.bits))|);
    var data, maps := DataAt(t.owner, i, off / BSIZE, Reaches(off, n)), MapBlocks(sb, NewBits(s.bits, t.bits));
    var e0, e := Blocks(size), Blocks(Max(size, off + n));
    var ind := if e > e0 && e > NDIRECT then IndAt(t.owner, i) else {};
    var inode := if off + n > size then {IBlock(sb, i)} else {};
    SizesBound(data, maps, ind, inode);
    WriteLogIs(sb, s.owner, t.owner, i, off, n, size, NewBits(s.bits, t.bits));
  }

  lemma FileTook(sb: Super, s: Fs, t: Fs, i: nat, off: nat, n: nat, size: nat)
    requires WroteFile(sb, s, t, i, off, n, size)
    ensures |NewBits(s.bits, t.bits)| + BlocksFor(size) == BlocksFor(Max(size, off + n))
  {
    TookCount(s.bits, t.bits, BlocksTaken(s.nodes[i], t.nodes[i].ext));
    TakenIs(s.nodes[i], size, Max(size, off + n));
  }

  /** So a full chunk logs MAXOPBLOCKS blocks exactly when it is not aligned and the blocks
      that it takes are under four bitmap blocks. */
  lemma FullChunkCosts(sb: Super, s: Fs, t: Fs, i: nat, off: nat, size: nat)
    requires WroteFile(sb, s, t, i, off, CHUNK, size) && Layout(sb, |s.nodes|)
    ensures |WriteLog(sb, s.owner, t.owner, i, off, CHUNK, size)| == MAXOPBLOCKS <==>
              off % BSIZE != 0 && |MapBlocks(sb, NewBits(s.bits, t.bits))| == 4
  {
    hide Inv, Layout, WriteLog, MapBlocks, NewBits, BlocksFor, WriteCost;
    WriteCosts(sb, s, t, i, off, CHUNK, size);
    FileTook(sb, s, t, i, off, CHUNK, size);
    MapCount(sb, NewBits(s.bits, t.bits));
    ChunkNeedsAll(off, size, |MapBlocks(sb, NewBits(s.bits, t.bits))|);
  }

  /** Other files keep their bytes, and their inodes stay right. */
  lemma OthersFiles(sb: Super, s: Fs, t: Fs, d: seq<Dinode>, d': seq<Dinode>, i: nat)
    requires Inv(sb, s) && Inv(sb, t) && OthersSame(sb, s, t, i) && i < |s.nodes| == |d|
    requires |d'| == |d| && d' == d[i := d'[i]] && forall k :: 0 <= k < |d| ==> Synced(d[k], s.nodes[k])
    ensures |t.nodes| == |s.nodes| && forall k :: 0 <= k < |d| && k != i ==> Synced(d'[k], t.nodes[k])
    ensures FilesOf(sb, t, d') == FilesOf(sb, s, d)[i := Content(sb, t, i, d'[i].size)]
  {
    hide Inv, Data, Synced;
    var f, f' := FilesOf(sb, s, d), FilesOf(sb, t, d');
    forall k | 0 <= k < |f'| && k != i ensures f'[k] == f[k] {
      assert t.nodes[k] == s.nodes[k] && d'[k] == d[k];
    }
  }

  function Min(a: nat, b: nat): nat {
    if a < b then a else b
  }

  // ---------- the account of writei's rounds ----------

  lemma NodeGrows(sb: Super, s0: Fs, s: Fs, i: nat, off: nat, src: seq<Byte>, tot: nat)
    requires Writing(sb, s0, s, i, off, src, tot)
    ensures i < |s0.nodes| == |s.nodes| && s0.nodes[i].ext <= s.nodes[i].ext
    ensures s.nodes[i].ind <==> s0.nodes[i].ind || s.nodes[i].ext > NDIRECT
    ensures Inv(sb, s0) && Inv(sb, s) && s.nodes[i].ext == Max(s0.nodes[i].ext, Blocks(off + tot))
  {
    hide Inv, Data, Written, Flat, Blocks;
  }

  lemma ReachNext(off: nat, tot: nat, n: nat, bn: nat, o: nat, m: nat)
    requires Round(off, tot, n, bn, o, m)
    ensures Reaches(off, tot) == bn && Reaches(off, tot + m) == bn + 1 && off / BSIZE <= bn
    ensures bn + 1 <= Blocks(off + n) && bn < MAXFILE
  {
    RoundArith(off, tot, n, Blocks(off + tot));
  }

  lemma RoundAccounted(sb: Super, s0: Fs, s: Fs, t: Fs, i: nat, off: nat, src: seq<Byte>, tot: nat, bn: nat, o: nat,
                       m: nat,
                       before: set<nat>, l: set<nat>, logged: set<nat>)
    requires Writing(sb, s0, s, i, off, src, tot) && Round(off, tot, |src|, bn, o, m) && Inv(sb, t)
    requires i < |s.nodes| && bn <= s.nodes[i].ext
    requires Accounted(sb, s0, s, i, before, l, off / BSIZE, Reaches(off, tot))
    requires Accounted(sb, s, t, i, l, logged, bn, bn + 1)
    ensures Accounted(sb, s0, t, i, before, logged, off / BSIZE, Reaches(off, tot + m))
  {
    hide Inv, Accounted, Round, Reaches, Writing, Blocks;
    ReachNext(off, tot, |src|, bn, o, m);
    NodeGrows(sb, s0, s, i, off, src, tot);
    AccountedBoth(sb, s0, s, t, i, before, l, logged, off / BSIZE, bn);
  }

  /** A round that finds no block: there were too few to begin with. */
  lemma RoundShort(sb: Super, s0: Fs, s: Fs, i: nat, off: nat, src: seq<Byte>, tot: nat, bn: nat, o: nat, m: nat,
                   before: set<nat>, l: set<nat>)
    requires Writing(sb, s0, s, i, off, src, tot) && Round(off, tot, |src|, bn, o, m)
    requires i < |s.nodes| && bn == s.nodes[i].ext && FreeCount(s.bits) < BlocksTaken(s.nodes[i], bn + 1)
    requires Accounted(sb, s0, s, i, before, l, off / BSIZE, Reaches(off, tot))
    ensures i < |s0.nodes| && FreeCount(s0.bits) < BlocksTaken(s0.nodes[i], Blocks(off + |src|))
  {
    hide Inv, Writing, Blocks, Reaches, Round, FreeCount, Only, WroteLog, Grows, BlocksTaken;
    ReachNext(off, tot, |src|, bn, o, m);
    NodeGrows(sb, s0, s, i, off, src, tot);
    TakenBoth(s0.nodes[i], s.nodes[i], bn + 1);
    TakenMore(s0.nodes[i], bn + 1, Blocks(off + |src|));
    assert TookLowest(s0.bits, s.bits, BlocksTaken(s0.nodes[i], s.nodes[i].ext));
  }

  lemma TakenMore(n: Node, e: nat, e': nat)
    requires e <= e'
    ensures BlocksTaken(n, e) <= BlocksTaken(n, e')
  {
  }

  lemma NotEnough(n: Node, d: Dinode, off: nat, k: nat)
    requires Synced(d, n) && off <= d.size
    ensures BlocksTaken(n, Blocks(off + k)) + BlocksFor(d.size) == BlocksFor(Max(d.size, off + k))
  {
  }

  /** The loop's account, with the inode, is writei's. */
  lemma AllWritten(sb: Super, s0: Fs, s: Fs, i: nat, d0: Dinode, off: nat, src: seq<Byte>, before: set<nat>,
                   l: set<nat>,
                   logged: set<nat>)
    requires Writing(sb, s0, s, i, off, src, |src|) && Synced(d0, s0.nodes[i]) && off <= d0.size
    requires Accounted(sb, s0, s, i, before, l, off / BSIZE, Reaches(off, |src|))
    requires logged == l + if |src| > 0 && off + |src| > d0.size then {IBlock(sb, i)} else {}
    ensures WroteFile(sb, s0, s, i, off, |src|, d0.size) && Only(sb, s0, s, logged)
    ensures logged == before + WriteLog(sb, s0.owner, s.owner, i, off, |src|, d0.size)
    ensures FreeCount(s0.bits) + BlocksFor(d0.size) >= BlocksFor(Max(d0.size, off + |src|))
  {
    hide Inv, Writing, Blocks, Reaches, BlocksFor, BlocksTaken, WroteLog, Grows, FreeCount, Synced, Only, Max,
         TookLowest;
    ReachIs(off, |src|, d0.size);
    NodeGrows(sb, s0, s, i, off, src, |src|);
    NotEnough(s0.nodes[i], d0, off, |src|);
    OnlyMore(sb, s0, s, l, logged);
    TakenSame(s0.nodes[i], off, |src|, d0);
    SyncedNode(d0, s0.nodes[i]);
    TookEnough(s0.bits, s.bits, BlocksTaken(s0.nodes[i], s.nodes[i].ext));
  }

  lemma SyncedNode(d: Dinode, n: Node)
    requires Synced(d, n)
    ensures n.ext == Blocks(d.size) && (n.ind <==> n.ext > NDIRECT)
  {
  }

  lemma TakenSame(n: Node, off: nat, k: nat, d: Dinode)
    requires Synced(d, n) && off <= d.size
    ensures BlocksTaken(n, Blocks(Max(d.size, off + k))) == BlocksTaken(n, Blocks(off + k))
  {
  }

  lemma OthersNodes(sb: Super, s: Fs, t: Fs, i: nat)
    requires Inv(sb, s) && Inv(sb, t) && i < |s.nodes| && OthersSame(sb, s, t, i)
    ensures i < |t.nodes| && t.nodes == s.nodes[i := t.nodes[i]]
  {
  }

  /** The blocks that inode i's file has. */
  ghost function FileBlocks(s: Fs, i: nat): set<nat> {
    set b | b in s.owner && s.owner[b].0 == i
  }

  lemma TruncFrees(sb: Super, s: Fs, i: nat)
    requires Inv(sb, s) && i < |s.nodes|
    ensures NewBits(Truncate(s, i).bits, s.bits) == FileBlocks(s, i)
  {
  }

  /** The exact cost of a truncation, on a disk laid out in regions: the bitmap blocks that
      the file's blocks are under, and the inode. So it is within an operation's reservation
      exactly if those bitmap blocks are fewer than MAXOPBLOCKS. */
  lemma TruncCosts(sb: Super, s: Fs, i: nat)
    requires Inv(sb, s) && i < |s.nodes| && Layout(sb, |s.nodes|)
    ensures var maps, logged := MapBlocks(sb, FileBlocks(s, i)),
                                MapBlocks(sb, NewBits(Truncate(s, i).bits, s.bits)) + {IBlock(sb, i)};
            |logged| == |maps| + 1 && (|logged| <= MAXOPBLOCKS <==> |maps| < MAXOPBLOCKS)
  {
    TruncFrees(sb, s, i);
    InodesFirst(sb, |s.nodes|, i);
    MapsAreMeta(sb, FileBlocks(s, i));
    UnionSize(MapBlocks(sb, FileBlocks(s, i)), {IBlock(sb, i)});
  }

  /** Freeing takes no more than every bitmap block and the inode's: within one operation's
      reservation on any disk of at most nine bitmap blocks. */
  lemma TruncCost(sb: Super, a: seq<bool>, b: seq<bool>, i: nat)
    requires |a| == |b| == sb.size
    ensures |MapBlocks(sb, NewBits(b, a)) + {IBlock(sb, i)}| <= sb.size / BPB + 2
    ensures sb.size < (MAXOPBLOCKS - 1) * BPB ==> |MapBlocks(sb, NewBits(b, a)) + {IBlock(sb, i)}| <= MAXOPBLOCKS
  {
    MapsBound(sb, NewBits(b, a));
    UnionSize(MapBlocks(sb, NewBits(b, a)), {IBlock(sb, i)});
  }

  // ---------- whole operations ----------

  /** A file-system state. */
  datatype Version = Version(s: Fs, d: seq<Dinode>)

  /** A right file system: no block with two owners, the bitmap exact, each inode on disk
      as its file is. */
  ghost predicate Sound(sb: Super, a: Version) {
    Inv(sb, a.s) && |a.d| == |a.s.nodes| && forall i :: 0 <= i < |a.d| ==> Synced(a.d[i], a.s.nodes[i])
  }

  /** What an operation that logged these blocks has done. */
  ghost predicate OpDid(sb: Super, s: Fs, d: seq<Dinode>, t: Fs, d': seq<Dinode>, logged: set<nat>) {
    && Only(sb, s, t, logged) && |d'| == |d|
    && forall i :: 0 <= i < |d| && d'[i] != d[i] ==> IBlock(sb, i) in logged
  }

  /** A write of n bytes at off to inode i's file, as one operation. */
  ghost predicate WriteAct(sb: Super, a: Version, b: Version, i: nat, off: nat, n: nat, logged: set<nat>) {
    && i < |a.d| && b.d == a.d[i := if i < |b.d| then b.d[i] else a.d[i]]
    && off <= a.d[i].size && WroteFile(sb, a.s, b.s, i, off, n, a.d[i].size)
    && logged == WriteLog(sb, a.s.owner, b.s.owner, i, off, n, a.d[i].size)
  }

  /** A truncation of inode i's file, as one operation. */
  ghost predicate TruncAct(sb: Super, a: Version, b: Version, i: nat, logged: set<nat>) {
    && i < |a.d| && i < |a.s.nodes| && b.s == Truncate(a.s, i)
    && b.d == a.d[i := if i < |b.d| then b.d[i] else a.d[i]]
    && logged == MapBlocks(sb, NewBits(b.s.bits, a.s.bits)) + {IBlock(sb, i)}
  }

  ghost predicate Act(sb: Super, a: Version, b: Version, logged: set<nat>) {
    && Sound(sb, a) && Sound(sb, b)
    && ((exists i: nat, off: nat, n: nat :: WriteAct(sb, a, b, i, off, n, logged))
        || (exists i: nat :: TruncAct(sb, a, b, i, logged)))
  }

  /** The disk that mkfs makes, before it fills in a file. */
  ghost predicate Fresh(sb: Super, a: Version) {
    && Sound(sb, a) && a.s.owner == map[] && |a.s.bits| == sb.size
    && (forall b :: 0 <= b < sb.size ==> (a.s.bits[b] <==> b < sb.meta))
    && (forall i :: 0 <= i < |a.d| ==> a.d[i].size == 0)
  }

  /** From a fresh disk, writes and truncations have led through these states, and each has
      logged these blocks. */
  ghost predicate Trail(sb: Super, past: seq<Version>, ops: seq<set<nat>>) {
    && |past| == |ops| + 1 && Fresh(sb, past[0])
    && forall k: nat :: k < |ops| ==> Act(sb, past[k], past[k + 1], ops[k])
  }

  lemma TrailMore(sb: Super, past: seq<Version>, ops: seq<set<nat>>, b: Version, logged: set<nat>)
    requires Trail(sb, past, ops) && Act(sb, past[|ops|], b, logged)
    ensures Trail(sb, past + [b], ops + [logged])
  {
    hide Act, Fresh;
    forall k: nat | k < |ops| + 1
      ensures Act(sb, (past + [b])[k], (past + [b])[k + 1], (ops + [logged])[k])
    {
      if k < |ops| { assert Act(sb, past[k], past[k + 1], ops[k]); }
    }
  }

  class Inode {
    const inum: nat
    var size: nat
    var addrs: seq<nat>

    /** ilock: the cached inode is read from disk. */
    constructor (inum: nat, d: Dinode)
      ensures this.inum == inum && size == d.size && addrs == d.addrs
    {
      this.inum := inum;
      size, addrs := d.size, d.addrs;
    }
  }

  class FileSystem {
    const sb: Super
    var bits: seq<bool>
    var blocks: seq<Block>
    var dinodes: seq<Dinode>
    /** The blocks that the current operation has logged, and what each operation that has
        ended logged, and the states between them. */
    var logged: set<nat>
    ghost var ops: seq<set<nat>>
    ghost var past: seq<Version>
    ghost var nodes: seq<Node>
    ghost var owner: map<nat, (nat, nat)>

    ghost function S(): Fs
      reads this
    {
      Fs(bits, blocks, nodes, owner)
    }

    ghost function Now(): Version
      reads this
    {
      Version(S(), dinodes)
    }

    ghost predicate Valid()
      reads this
    {
      Inv(sb, S()) && |dinodes| == |nodes|
    }

    /** Everything on disk agrees, except perhaps inode i, whose change is under way. */
    ghost predicate SyncedBut(i: nat)
      reads this
    {
      |dinodes| == |nodes| && forall k :: 0 <= k < |nodes| && k != i ==> Synced(dinodes[k], nodes[k])
    }

    ghost predicate AllSynced()
      reads this
    {
      SyncedBut(|nodes|)
    }

    /** The cached inode is the current one. */
    ghost predicate Holds(ip: Inode)
      reads this, ip
    {
      ip.inum < |nodes| && nodes[ip.inum].addrs == ip.addrs
    }

    /** Every file's bytes, by inode number. */
    ghost function Files(): seq<seq<Byte>>
      requires Valid()
      reads this
    {
      FilesOf(sb, S(), dinodes)
    }

    lemma FileSize(i: nat)
      requires Valid() && AllSynced() && i < |nodes|
      ensures |Files()[i]| == dinodes[i].size
    {
      assert Synced(dinodes[i], nodes[i]);
      SizedContent(sb, S(), i, dinodes[i]);
    }

    /** mkfs's disk before it fills in a first file: the blocks before meta are in use,
        the rest is free, and every inode is empty. */
    constructor (sb: Super, ninodes: nat)
      requires 0 < sb.meta <= sb.size < WRAP
      ensures Valid() && AllSynced() && this.sb == sb && |Files()| == |nodes| == ninodes && logged == {} && ops == []
      ensures past == [Now()] && Trail(sb, past, ops)
      ensures owner == map[] && |bits| == sb.size
      ensures forall b :: 0 <= b < sb.size ==> (bits[b] <==> b < sb.meta)
      ensures forall i :: 0 <= i < ninodes ==> dinodes[i] == Dinode(0, Empty().addrs)
      ensures forall i :: 0 <= i < ninodes ==> Files()[i] == []
    {
      this.sb := sb;
      bits := seq(sb.size, b => b < sb.meta);
      blocks := seq(sb.size, _ => ZeroBlock());
      dinodes := seq(ninodes, _ => Dinode(0, Empty().addrs));
      logged, ops := {}, [];
      nodes, owner := seq(ninodes, _ => Empty()), map[];
      new;
      assert Inv(sb, S());
      EmptySynced();
      past := [Now()];
    }

    // ---------- the bitmap ----------

    /** The operation's log starts empty, and is kept when it ends. */
    method BeginOp()
      modifies `logged
      ensures logged == {}
    {
      logged := {};
    }

    method EndOp()
      modifies `ops, `past
      ensures ops == old(ops) + [logged] && past == old(past) + [Now()]
    {
      ops, past := ops + [logged], past + [Now()];
    }

    /** The lowest free block, zeroed; 0 when there is none and the source panics. */
    method Balloc() returns (b: nat)
      requires |bits| == |blocks| == sb.size && (0 < sb.size ==> bits[0])
      modifies `bits, `blocks, `logged
      ensures |bits| == |old(bits)| && |blocks| == |old(blocks)|
      ensures b == 0 <==> FreeCount(old(bits)) == 0
      ensures b == 0 ==> bits == old(bits) && blocks == old(blocks) && logged == old(logged)
      ensures b != 0 ==>
                && b < sb.size && !old(bits)[b] && TookLowest(old(bits), bits, 1)
                && bits == old(bits)[b := true] && blocks == old(blocks)[b := ZeroBlock()]
                && logged == old(logged) + {BBlock(sb, b), b}
    {
      var base := 0;
      while base < sb.size
        invariant forall c: nat :: c < base && c < sb.size ==> bits[c]
        invariant bits == old(bits) && blocks == old(blocks) && logged == old(logged)
      {
        var bi := 0;
        while bi < BPB && base + bi < sb.size
          invariant bi <= BPB && forall c: nat :: c < base + bi && c < sb.size ==> bits[c]
          invariant bits == old(bits) && blocks == old(blocks) && logged == old(logged)
        {
          if !bits[base + bi] {
            b := base + bi;
            NoneFree(bits);
            TookOne(bits, b);
            hide FreeCount, TookLowest;
            bits := bits[b := true];
            logged := logged + {BBlock(sb, b)};
            blocks := blocks[b := ZeroBlock()];
            logged := logged + {b};
            return;
          }
          bi := bi + 1;
        }
        base := base + BPB;
      }
      NoneFree(bits);
      return 0;
    }

    /** The source panics when the block is free already. */
    method Bfree(b: nat)
      requires b < |bits| && bits[b]
      modifies `bits, `logged
      ensures bits == old(bits)[b := false] && logged == old(logged) + {BBlock(sb, b)}
    {
      bits := bits[b := false];
      logged := logged + {BBlock(sb, b)};
    }

    method Iupdate(ip: Inode)
      requires ip.inum < |dinodes|
      modifies `dinodes, `logged
      ensures dinodes == old(dinodes)[ip.inum := Dinode(ip.size, ip.addrs)]
      ensures logged == old(logged) + {IBlock(sb, ip.inum)}
    {
      dinodes := dinodes[ip.inum := Dinode(ip.size, ip.addrs)];
      logged := logged + {IBlock(sb, ip.inum)};
    }

    // ---------- bmap ----------

    /** From was on, what has been done to inode i is that its blocks lo up to hi were written. */
    ghost predicate Logs(was: Fs, before: set<nat>, i: nat, lo: nat, hi: nat)
      reads this
    {
      Accounted(sb, was, S(), i, before, logged, lo, hi)
    }

    /** The disk block of ip's block bn, taken if bn is the next block of the file.
        Callers never go further, for files have no holes. 0 if the source panics
        for want of a block. */
    method Bmap(ip: Inode, bn: nat) returns (addr: nat)
      requires Valid() && Holds(ip) && bn < MAXFILE && bn <= nodes[ip.inum].ext
      modifies this`bits, this`blocks, this`logged, this`nodes, this`owner, ip`addrs
      ensures addr == 0 ==> bn == old(nodes)[ip.inum].ext && FreeCount(bits) == 0
                              && FreeCount(old(bits)) < BlocksTaken(old(nodes)[ip.inum], bn + 1)
      ensures addr != 0 ==> Valid() && Holds(ip) && bn < nodes[ip.inum].ext
                              && |ip.addrs| == NDIRECT + 1 && addr == At(blocks, nodes[ip.inum], bn)
      ensures addr != 0 && bn < old(nodes)[ip.inum].ext ==>
                S() == old(S()) && ip.addrs == old(ip.addrs) && logged == old(logged)
      ensures addr != 0 && bn == old(nodes)[ip.inum].ext ==>
                GrewOne(sb, old(S()), S(), ip.inum) && Logs(old(S()), old(logged), ip.inum, bn, bn + 1)
    {
      hide Inv, Data, At, GrewOne, OthersSame, Accounted, FreeCount;
      ghost var s, i := S(), ip.inum;
      NodeFacts(sb, s, i, bn);
      if bn < NDIRECT {
        addr := DirectBlock(ip, bn);
        return;
      }
      var ib := IndirectBlock(ip);
      if ib == 0 { return 0; }
      ghost var u, l := S(), logged;
      NodeFacts(sb, u, i, bn);
      addr := BmapEntry(ip, bn, ib);
      if addr == 0 {
        if !s.nodes[i].ind { FreeOneLess(s.bits, u.bits); }
        return;
      }
      if bn == s.nodes[i].ext { EntryAccounted(sb, s, u, S(), i, old(logged), l, logged, ib, addr); }
    }

    /** The block that the inode itself names for bn. */
    method DirectBlock(ip: Inode, bn: nat) returns (addr: nat)
      requires Valid() && Holds(ip) && bn < NDIRECT && bn <= nodes[ip.inum].ext
      modifies this`bits, this`blocks, this`logged, this`nodes, this`owner, ip`addrs
      ensures addr == 0 ==> bn == old(nodes)[ip.inum].ext && FreeCount(bits) == 0
                              && FreeCount(old(bits)) < BlocksTaken(old(nodes)[ip.inum], bn + 1)
      ensures addr != 0 ==> Valid() && Holds(ip) && bn < nodes[ip.inum].ext
                              && |ip.addrs| == NDIRECT + 1 && addr == At(blocks, nodes[ip.inum], bn)
      ensures addr != 0 && bn < old(nodes)[ip.inum].ext ==>
                S() == old(S()) && ip.addrs == old(ip.addrs) && logged == old(logged)
      ensures addr != 0 && bn == old(nodes)[ip.inum].ext ==>
                GrewOne(sb, old(S()), S(), ip.inum) && Logs(old(S()), old(logged), ip.inum, bn, bn + 1)
    {
      hide Inv, Data, At, GrewOne, OthersSame, Accounted, FreeCount, TookLowest;
      ghost var s, i := S(), ip.inum;
      NodeFacts(sb, s, i, bn);
      AtDirect(blocks, nodes[i], bn);
      addr := ip.addrs[bn];
      if addr == 0 {
        addr := Balloc();
        if addr == 0 { return; }
        DirectGrew(sb, s, i, addr);
        ip.addrs := ip.addrs[bn := addr];
        nodes := nodes[i := nodes[i].(addrs := nodes[i].addrs[bn := addr], ext := bn + 1)];
        owner := owner[addr := (i, bn)];
        assert S() == NewDirect(s, i, addr);
        DirectAccounted(sb, s, i, addr, old(logged));
      }
    }

    /** ip's indirect block, taken if there is none; 0 as in Bmap. */
    method IndirectBlock(ip: Inode) returns (ib: nat)
      requires Valid() && Holds(ip)
      modifies this`bits, this`blocks, this`logged, this`nodes, this`owner, ip`addrs
      ensures ib == 0 ==> !old(nodes)[ip.inum].ind && FreeCount(old(bits)) == 0 && bits == old(bits)
      ensures ib != 0 ==> Valid() && Holds(ip) && |ip.addrs| == NDIRECT + 1 && ib == ip.addrs[NDIRECT]
      ensures ib != 0 ==> TookIndirect(sb, old(S()), S(), ip.inum, old(logged), logged, ib)
      ensures ib != 0 && old(nodes)[ip.inum].ind ==> ip.addrs == old(ip.addrs)
    {
      hide Inv, Data, At, FreeCount, TookLowest;
      ghost var s, i := S(), ip.inum;
      NodeFacts(sb, s, i, 0);
      ib := ip.addrs[NDIRECT];
      if ib == 0 {
        ib := Balloc();
        if ib == 0 { return; }
        IndirectTaken(sb, s, i, ib);
        FreeUnowned(sb, s, ib);
        ip.addrs := ip.addrs[NDIRECT := ib];
        nodes := nodes[i := nodes[i].(addrs := nodes[i].addrs[NDIRECT := ib], ind := true)];
        owner := owner[ib := (i, INDIRECT)];
        assert S() == NewIndirect(s, i, ib);
      }
    }

    /** The entry of the indirect block ib for block bn, filled in if it is empty. */
    method BmapEntry(ip: Inode, bn: nat, ib: nat) returns (addr: nat)
      requires Valid() && Holds(ip) && NDIRECT <= bn < MAXFILE && bn <= nodes[ip.inum].ext
      requires nodes[ip.inum].ind && |ip.addrs| == NDIRECT + 1 && ib == ip.addrs[NDIRECT]
      modifies this`bits, this`blocks, this`logged, this`nodes, this`owner
      ensures addr == 0 ==> bn == old(nodes)[ip.inum].ext && FreeCount(old(bits)) == 0 && bits == old(bits)
      ensures addr != 0 ==> Valid() && Holds(ip) && nodes[ip.inum].ind && bn < nodes[ip.inum].ext
                              && addr == At(blocks, nodes[ip.inum], bn)
      ensures addr != 0 && bn < old(nodes)[ip.inum].ext ==> S() == old(S()) && logged == old(logged)
      ensures addr != 0 && bn == old(nodes)[ip.inum].ext ==>
                TookEntry(sb, old(S()), S(), ip.inum, old(logged), logged, ib, addr)
    {
      hide Inv, Data, At, GrewOne, OthersSame, FreeCount, TookLowest;
      ghost var s, i := S(), ip.inum;
      NodeFacts(sb, s, i, bn);
      AtIndirect(blocks, nodes[i], bn);
      addr := Word(blocks[ib], bn - NDIRECT);
      if addr == 0 {
        addr := Balloc();
        if addr == 0 { return; }
        EntryGrew(sb, s, i, addr);
        FreeUnowned(sb, s, addr);
        blocks := blocks[ib := PutWord(blocks[ib], bn - NDIRECT, addr)];
        logged := logged + {ib};
        nodes := nodes[i := nodes[i].(ext := bn + 1)];
        owner := owner[addr := (i, bn)];
        assert S() == NewEntry(s, i, addr);
      }
    }

    // ---------- reading and writing ----------

    /** One round of writei: piece into block bn from byte o. */
    method WriteOne(ip: Inode, bn: nat, o: nat, piece: seq<Byte>) returns (ok: bool)
      requires Valid() && Holds(ip) && bn < MAXFILE && bn <= nodes[ip.inum].ext && o + |piece| <= BSIZE
      modifies this`bits, this`blocks, this`logged, this`nodes, this`owner, ip`addrs
      ensures !ok ==> bn == old(nodes)[ip.inum].ext && FreeCount(bits) == 0
                        && FreeCount(old(bits)) < BlocksTaken(old(nodes)[ip.inum], bn + 1)
      ensures ok ==> Valid() && Holds(ip) && WroteOne(sb, old(S()), S(), ip.inum, bn, o, piece)
      ensures ok ==> Logs(old(S()), old(logged), ip.inum, bn, bn + 1)
    {
      hide Inv, Data, At, GrewOne, OthersSame, WroteOne, Accounted, FreeCount;
      ghost var s, i := S(), ip.inum;
      var addr := Bmap(ip, bn);
      if addr == 0 { return false; }
      WroteAfter(sb, s, S(), i, bn, o, piece);
      ghost var u, l := S(), logged;
      blocks := blocks[addr := Patch(blocks[addr], o, piece)];
      logged := logged + {addr};
      assert S() == WriteBlock(u, i, bn, Patch(u.blocks[addr], o, piece));
      WroteExt(sb, s, S(), i, bn, o, piece);
      WriteAccounted(sb, s, u, i, bn, Patch(u.blocks[addr], o, piece), old(logged), l);
      return true;
    }

    /** writei: -1 past the end or beyond the largest file; a panic exactly if too few blocks
        are free; otherwise the file has src spliced in, no other file changed, the inode on
        disk is the cached one, and just the blocks that changed have been logged. */
    method Writei(ip: Inode, src: seq<Byte>, off: nat) returns (r: Outcome)
      requires Valid() && AllSynced() && Holds(ip) && ip.size == dinodes[ip.inum].size
      requires off < WRAP && |src| < WRAP
      modifies this`bits, this`blocks, this`dinodes, this`logged, this`nodes, this`owner, ip`size, ip`addrs
      ensures r == Ret(-1) <==> off > old(ip.size) || off + |src| > MAXFILE * BSIZE
      ensures r == Stopped <==>
                && off <= old(ip.size) && off + |src| <= MAXFILE * BSIZE
                && FreeCount(old(bits)) + BlocksFor(old(ip.size)) < BlocksFor(Max(old(ip.size), off + |src|))
      ensures r == Stopped ==> FreeCount(bits) == 0
      ensures r != Stopped && r != Ret(-1) ==> r == Ret(|src|)
      ensures r != Stopped ==> Valid() && AllSynced() && Holds(ip) && ip.size == dinodes[ip.inum].size
                                 && |nodes| == |old(nodes)|
      ensures r == Ret(-1) ==> S() == old(S()) && dinodes == old(dinodes) && logged == old(logged)
      ensures r != Stopped && r != Ret(-1) ==>
                && off <= |old(Files())[ip.inum]|
                && Files() == old(Files())[ip.inum := Splice(old(Files())[ip.inum], off, src)]
                && ip.size == Max(old(ip.size), off + |src|)
                && WroteAll(old(S()), old(dinodes), old(logged), ip.inum, off, |src|)
    {
      hide Inv, FilesOf, Splice, Add32, WroteAll, FreeCount, BlocksFor;
      Add32Wraps(off, |src|);
      if off > ip.size || Add32(off, |src|) < off { return Ret(-1); }
      if Add32(off, |src|) > MAXFILE * BSIZE { return Ret(-1); }
      var ok := WriteAll(ip, src, off);
      r := if ok then Ret(|src|) else Stopped;
    }

    /** n bytes at off have been written to inode i's file, from was on: just these blocks
        were taken and logged, and every block that has changed is among the logged ones. */
    ghost predicate WroteAll(was: Fs, d: seq<Dinode>, before: set<nat>, i: nat, off: nat, n: nat)
      reads this
    {
      && i < |d| == |dinodes| && off <= d[i].size && WroteFile(sb, was, S(), i, off, n, d[i].size)
      && logged == before + WriteLog(sb, was.owner, owner, i, off, n, d[i].size)
      && Only(sb, was, S(), logged)
      && nodes == was.nodes[i := nodes[i]] && dinodes == d[i := dinodes[i]]
      && (dinodes[i] != d[i] ==> IBlock(sb, i) in logged)
    }

    /** writei past its checks. */
    method WriteAll(ip: Inode, src: seq<Byte>, off: nat) returns (ok: bool)
      requires Valid() && AllSynced() && Holds(ip) && ip.size == dinodes[ip.inum].size
      requires off <= ip.size && off + |src| <= MAXFILE * BSIZE
      modifies this`bits, this`blocks, this`dinodes, this`logged, this`nodes, this`owner, ip`size, ip`addrs
      ensures !ok ==> FreeCount(bits) == 0
      ensures !ok <==> FreeCount(old(bits)) + BlocksFor(old(ip.size)) < BlocksFor(Max(old(ip.size), off + |src|))
      ensures ok ==> Valid() && AllSynced() && Holds(ip) && ip.size == dinodes[ip.inum].size && |nodes| == |old(nodes)|
      ensures ok ==>
                && off <= |old(Files())[ip.inum]|
                && Files() == old(Files())[ip.inum := Splice(old(Files())[ip.inum], off, src)]
                && ip.size == Max(old(ip.size), off + |src|)
                && WroteAll(old(S()), old(dinodes), old(logged), ip.inum, off, |src|)
    {
      hide Inv, Content, OthersSame, Writing, Accounted, FreeCount, Touched, Blocks, Splice, Synced, WriteLog, Only;
      ghost var s0, i, d0, ds0, l0 := S(), ip.inum, dinodes[ip.inum], dinodes, logged;
      WritingStarts(sb, s0, i, d0, off, src);
      ok := WriteLoop(ip, src, off);
      if !ok {
        NotEnough(s0.nodes[i], d0, off, |src|);
        return;
      }
      ghost var s, l := S(), logged;
      if |src| > 0 && off + |src| > ip.size {
        ip.size := off + |src|;
        Iupdate(ip);
      }
      WritingDone(sb, s0, s, i, d0, dinodes[i], off, src);
      OthersFiles(sb, s0, s, ds0, dinodes, i);
      AllWritten(sb, s0, s, i, d0, off, src, l0, l, logged);
      OthersNodes(sb, s0, s, i);
    }

    /** The loop of writei. */
    method WriteLoop(ip: Inode, src: seq<Byte>, off: nat) returns (ok: bool)
      requires Valid() && Holds(ip) && off + |src| <= MAXFILE * BSIZE && Writing(sb, S(), S(), ip.inum, off, src, 0)
      modifies this`bits, this`blocks, this`logged, this`nodes, this`owner, ip`addrs
      ensures !ok ==> FreeCount(bits) == 0
      ensures !ok ==> FreeCount(old(bits)) < BlocksTaken(old(nodes)[ip.inum], Blocks(off + |src|))
      ensures ok ==> Valid() && Holds(ip) && |nodes| == |old(nodes)|
      ensures ok ==> Writing(sb, old(S()), S(), ip.inum, off, src, |src|)
      ensures ok ==> Logs(old(S()), old(logged), ip.inum, off / BSIZE, Reaches(off, |src|))
    {
      hide Inv, Data, OthersSame, Writing, Accounted, Blocks, Flat, FreeCount;
      ghost var s0, i := S(), ip.inum;
      NodeFacts(sb, s0, i, 0);
      AccountedNone(sb, s0, i, logged, off / BSIZE);
      var tot := 0;
      while tot < |src|
        invariant tot <= |src| && (tot == |src| || tot == 0 || (off + tot) % BSIZE == 0)
        invariant Valid() && Holds(ip) && |nodes| == |s0.nodes| && Writing(sb, s0, S(), i, off, src, tot)
        invariant Logs(s0, old(logged), i, off / BSIZE, Reaches(off, tot))
      {
        var m;
        ok, m := WriteRound(ip, src, off, tot, s0, old(logged));
        if !ok { return; }
        tot := tot + m;
      }
      ok := true;
    }

    /** One round of writei's loop, m bytes long. */
    method WriteRound(ip: Inode, src: seq<Byte>, off: nat, tot: nat, ghost s0: Fs, ghost before: set<nat>)
      returns (ok: bool, m: nat)
      requires tot < |src| && off + |src| <= MAXFILE * BSIZE && (tot == 0 || (off + tot) % BSIZE == 0)
      requires Valid() && Holds(ip) && |nodes| == |s0.nodes| && Writing(sb, s0, S(), ip.inum, off, src, tot)
      requires Logs(s0, before, ip.inum, off / BSIZE, Reaches(off, tot))
      modifies this`bits, this`blocks, this`logged, this`nodes, this`owner, ip`addrs
      ensures !ok ==> FreeCount(bits) == 0 && FreeCount(s0.bits) < BlocksTaken(s0.nodes[ip.inum], Blocks(off + |src|))
      ensures 0 < m && tot + m <= |src| && (tot + m == |src| || (off + tot + m) % BSIZE == 0)
      ensures ok ==> Valid() && Holds(ip) && |nodes| == |s0.nodes| && Writing(sb, s0, S(), ip.inum, off, src, tot + m)
      ensures ok ==> Logs(s0, before, ip.inum, off / BSIZE, Reaches(off, tot + m))
    {
      hide Inv, Data, OthersSame, WroteOne, Writing, Accounted, Touched, Blocks, Flat, Reaches, FreeCount, BlocksTaken;
      var bn, o := (off + tot) / BSIZE, (off + tot) % BSIZE;
      m := if |src| - tot < BSIZE - o then |src| - tot else BSIZE - o;
      ghost var s, i, l := S(), ip.inum, logged;
      assert Round(off, tot, |src|, bn, o, m);
      RoundReady(sb, s0, s, i, off, src, tot, bn, o, m);
      assert m > 0;
      hide Round;
      ok := WriteOne(ip, bn, o, src[tot..tot + m]);
      if !ok {
        RoundShort(sb, s0, s, i, off, src, tot, bn, o, m, before, l);
        return;
      }
      WritingRound(sb, s0, s, S(), i, off, src, tot, bn, o, m);
      RoundAccounted(sb, s0, s, S(), i, off, src, tot, bn, o, m, before, l, logged);
    }

    /** readi: the bytes at off, as many of n as there are; it takes no block. */
    method Readi(ip: Inode, off: nat, n: nat) returns (dst: seq<Byte>, r: Outcome)
      requires Valid() && AllSynced() && Holds(ip) && ip.size == dinodes[ip.inum].size
      requires off < WRAP && n < WRAP
      modifies this`bits, this`blocks, this`logged, this`nodes, this`owner, ip`addrs
      ensures Valid() && S() == old(S()) && logged == old(logged) && ip.addrs == old(ip.addrs)
      ensures r == Ret(-1) <==> off > ip.size || off + n >= WRAP
      ensures r != Ret(-1) ==> r == Ret(|dst|) && dst == Slice(Files()[ip.inum], off, n)
    {
      hide Inv, Whole, Content, Slice, Synced, Add32;
      Add32Wraps(off, n);
      if off > ip.size || Add32(off, n) < off { return [], Ret(-1); }
      ghost var s, d, i := S(), dinodes[ip.inum], ip.inum;
      var len := if off + n > ip.size then ip.size - off else n;
      SliceIs(sb, s, i, d, off, n);
      dst := ReadLoop(ip, off, len);
      r := Ret(len);
    }

    /** The loop of readi. */
    method ReadLoop(ip: Inode, off: nat, len: nat) returns (dst: seq<Byte>)
      requires Valid() && Holds(ip) && off + len <= |Whole(sb, S(), ip.inum)|
      modifies this`bits, this`blocks, this`logged, this`nodes, this`owner, ip`addrs
      ensures Valid() && S() == old(S()) && logged == old(logged) && ip.addrs == old(ip.addrs)
      ensures dst == Whole(sb, S(), ip.inum)[off..off + len] && |dst| == len
    {
      hide Inv, Whole;
      ghost var s, i := S(), ip.inum;
      ghost var flat := Whole(sb, s, i);
      dst := [];
      var tot, o := 0, off;
      while tot < len
        invariant tot <= len && o == off + tot && S() == s && logged == old(logged) && ip.addrs == old(ip.addrs)
        invariant dst == flat[off..o]
      {
        var piece := ReadOne(ip, o, len - tot);
        JoinSlices(flat, off, o, o + |piece|);
        dst := dst + piece;
        tot, o := tot + |piece|, o + |piece|;
      }
    }

    /** One round of readi: as many of rest bytes at o as the block has. */
    method ReadOne(ip: Inode, o: nat, rest: nat) returns (piece: seq<Byte>)
      requires Valid() && Holds(ip) && rest > 0 && o + rest <= |Whole(sb, S(), ip.inum)|
      modifies this`bits, this`blocks, this`logged, this`nodes, this`owner, ip`addrs
      ensures Valid() && S() == old(S()) && logged == old(logged) && ip.addrs == old(ip.addrs)
      ensures 0 < |piece| <= rest && piece == Whole(sb, S(), ip.inum)[o..o + |piece|]
    {
      hide Inv, At, Flat;
      ghost var s, i := S(), ip.inum;
      ShapeOf(sb, s, i);
      hide Shape;
      var bn, k := o / BSIZE, o % BSIZE;
      var m := if rest < BSIZE - k then rest else BSIZE - k;
      assert bn * BSIZE + k == o;
      FlatSize(Data(sb, s.blocks, s.nodes[i]));
      NodeFacts(sb, s, i, 0);
      NodeFacts(sb, s, i, bn);
      var addr := Bmap(ip, bn);
      FlatSlice(Data(sb, s.blocks, s.nodes[i]), bn, k, m);
      piece := blocks[addr][k..k + m];
    }

    /** itrunc: exactly ip's blocks, data and indirect, become free, each once; no other file
        changes, the inode on disk says the file is empty, and just the bitmap blocks of
        what was freed and the inode are logged. */
    method Itrunc(ip: Inode)
      requires Valid() && AllSynced() && Holds(ip)
      modifies this`bits, this`dinodes, this`logged, this`nodes, this`owner, ip`size, ip`addrs
      ensures Valid() && AllSynced() && Holds(ip) && ip.size == dinodes[ip.inum].size == 0
      ensures S() == old(Truncate(S(), ip.inum)) && Files() == old(Files())[ip.inum := []]
      ensures dinodes == old(dinodes)[ip.inum := dinodes[ip.inum]]
      ensures logged == old(logged) + MapBlocks(sb, NewBits(bits, old(bits))) + {IBlock(sb, ip.inum)}
    {
      hide Inv, Truncate, FreedUpto, OthersSame, Content, FilesOf, Synced, NewBits, MapBlocks;
      ghost var s, j, ds := S(), ip.inum, dinodes;
      FreeBlocks(ip);
      FreedAll(sb, s, bits, j);
      Truncated(sb, s, j);
      ghost var t := Truncate(s, j);
      nodes, owner := t.nodes, t.owner;
      ip.size := 0;
      Iupdate(ip);
      assert S() == t;
      EmptySynced();
      OthersFiles(sb, s, t, ds, dinodes, j);
      SizedContent(sb, t, j, dinodes[j]);
    }

    /** itrunc's frees: the bits of ip's blocks are cleared and ip names no block. */
    method FreeBlocks(ip: Inode)
      requires Valid() && Holds(ip)
      modifies this`bits, this`logged, ip`addrs
      ensures S() == old(S()).(bits := bits) && FreedUpto(old(S()), bits, ip.inum, INDIRECT + 1)
      ensures ip.addrs == Empty().addrs
      ensures logged == old(logged) + MapBlocks(sb, NewBits(bits, old(bits)))
    {
      hide Inv, At, FreedUpto, NewBits, MapBlocks;
      ghost var s, j := S(), ip.inum;
      NodeFacts(sb, s, j, 0);
      var i := 0;
      FreedNone(s, j);
      FreedNothing(sb, bits);
      while i < NDIRECT
        invariant 0 <= i <= NDIRECT && S() == s.(bits := bits) && FreedUpto(s, bits, j, i)
        invariant |ip.addrs| == NDIRECT + 1 && logged == old(logged) + MapBlocks(sb, NewBits(bits, s.bits))
        invariant forall k :: 0 <= k <= NDIRECT ==> ip.addrs[k] == if k < i then 0 else s.nodes[j].addrs[k]
      {
        FreedOne(sb, s, bits, j, i);
        AtDirect(s.blocks, s.nodes[j], i);
        if ip.addrs[i] != 0 {
          FreedWas(s, bits, j, i, ip.addrs[i]);
          FreedMore(sb, bits, s.bits, ip.addrs[i]);
          Bfree(ip.addrs[i]);
          ip.addrs := ip.addrs[i := 0];
        }
        i := i + 1;
      }
      if ip.addrs[NDIRECT] != 0 {
        FreeIndirect(ip, s, old(logged));
      } else {
        NoIndirect(sb, s, bits, j);
      }
    }

    /** itrunc's second half: the blocks that the indirect block names, and that block. */
    method FreeIndirect(ip: Inode, ghost s: Fs, ghost before: set<nat>)
      requires Inv(sb, s) && S() == s.(bits := bits) && ip.inum < |nodes| && FreedUpto(s, bits, ip.inum, NDIRECT)
      requires |ip.addrs| == NDIRECT + 1 && ip.addrs[NDIRECT] != 0
      requires |s.nodes[ip.inum].addrs| == NDIRECT + 1 && ip.addrs[NDIRECT] == s.nodes[ip.inum].addrs[NDIRECT]
      requires logged == before + MapBlocks(sb, NewBits(bits, s.bits))
      modifies this`bits, this`logged, ip`addrs
      ensures logged == before + MapBlocks(sb, NewBits(bits, s.bits))
      ensures S() == s.(bits := bits) && FreedUpto(s, bits, ip.inum, INDIRECT + 1)
      ensures ip.addrs == old(ip.addrs)[NDIRECT := 0]
    {
      hide Inv, At, FreedUpto, NewBits, MapBlocks;
      ghost var i := ip.inum;
      NodeFacts(sb, s, i, 0);
      var ib := ip.addrs[NDIRECT];
      var j := 0;
      while j < NINDIRECT
        invariant 0 <= j <= NINDIRECT && S() == s.(bits := bits) && FreedUpto(s, bits, i, NDIRECT + j)
        invariant ip.addrs == old(ip.addrs) && logged == before + MapBlocks(sb, NewBits(bits, s.bits))
      {
        FreedOne(sb, s, bits, i, NDIRECT + j);
        AtIndirect(s.blocks, s.nodes[i], NDIRECT + j);
        var a := Word(blocks[ib], j);
        if a != 0 {
          FreedWas(s, bits, i, NDIRECT + j, a);
          FreedMore(sb, bits, s.bits, a);
          Bfree(a);
        }
        j := j + 1;
      }
      FreedOne(sb, s, bits, i, INDIRECT);
      NodeFacts(sb, s, i, INDIRECT);
      FreedWas(s, bits, i, INDIRECT, ib);
      FreedMore(sb, bits, s.bits, ib);
      Bfree(ip.addrs[NDIRECT]);
      ip.addrs := ip.addrs[NDIRECT := 0];
    }
  }

  /** A writei that is an operation of its own changes no block that it does not log. */
  lemma WriteIsOp(fs: FileSystem, was: Version, i: nat, off: nat, n: nat)
    requires fs.WroteAll(was.s, was.d, {}, i, off, n)
    ensures WriteAct(fs.sb, was, fs.Now(), i, off, n, fs.logged)
    ensures OpDid(fs.sb, was.s, was.d, fs.S(), fs.dinodes, fs.logged)
  {
    hide WroteFile, WriteLog, Only;
  }
}
