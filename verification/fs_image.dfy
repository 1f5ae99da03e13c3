/**
 The blocks of the disk that a file system is (fs.h, mkfs.c), and what is read off any
 such disk by that layout alone.
*/
module FsImage {
  import F = FsModel
  import opened FsLog
  import opened FileSystem
  import opened LogFormat

  // ---------- the disk that a file system is ----------

  function Pow2(n: nat): nat {
    if n == 0 then 1 else 2 * Pow2(n - 1)
  }

  /** n bits from lo on, the first lowest. */
  function BitsWord(bits: seq<bool>, lo: nat, n: nat): nat {
    if n == 0 then 0
    else BitsWord(bits, lo, n - 1) + if lo + n - 1 < |bits| && bits[lo + n - 1] then Pow2(n - 1) else 0
  }

  function DataWords(b: F.Block): Block {
    seq(BWORDS, j requires 0 <= j < BWORDS => F.Word(b, j))
  }

  /** Bitmap block k. */
  function MapWords(bits: seq<bool>, k: nat): Block {
    seq(BWORDS, j requires 0 <= j < BWORDS => BitsWord(bits, k * F.BPB + 32 * j, 32))
  }

  /** Word j of inode block k: sixteen words an inode, whose third is the size and the rest
      of which are its addresses. */
  function InodeWord(d: seq<Dinode>, k: nat, j: nat): nat {
    var i, w := k * F.IPB + j / 16, j % 16;
    if i >= |d| || w < 2 then 0
    else if w == 2 then d[i].size
    else if w - 3 < |d[i].addrs| then d[i].addrs[w - 3]
    else 0
  }

  function InodeWords(d: seq<Dinode>, k: nat): Block {
    seq(BWORDS, j requires 0 <= j < BWORDS => InodeWord(d, k, j))
  }

  /** Block b of the disk; rest is what is neither data, bitmap nor inodes. */
  function BlockOf(sb: F.Super, s: F.Fs, d: seq<Dinode>, rest: Disk, b: nat): Block
    requires b < |rest| == |s.blocks|
  {
    if b >= sb.meta then DataWords(s.blocks[b])
    else if b >= sb.bmapstart then MapWords(s.bits, b - sb.bmapstart)
    else if b >= sb.inodestart then InodeWords(d, b - sb.inodestart)
    else rest[b]
  }

  function Image(sb: F.Super, s: F.Fs, d: seq<Dinode>, rest: Disk): (r: Disk)
    requires |rest| == |s.blocks|
    ensures |r| == |rest|
  {
    seq(|rest|, b requires 0 <= b < |rest| => BlockOf(sb, s, d, rest, b))
  }

  // ---------- reading a disk's blocks ----------

  /** Word j of block b. */
  function WordAt(disk: Disk, b: nat, j: nat): nat {
    if b < |disk| && j < 128 then disk[b][j] else 0
  }

  /** An inode is sixteen words, eight to a block: the third is its size, and thirteen
      addresses follow. */
  function DiskInode(disk: Disk, inodestart: nat, i: nat): Dinode {
    var b, j := inodestart + i / 8, i % 8 * 16;
    Dinode(WordAt(disk, b, j + 2), seq<nat>(13, n requires 0 <= n < 13 => WordAt(disk, b, j + 3 + n)))
  }

  function Halved(w: nat, n: nat): nat {
    if n == 0 then w else Halved(w / 2, n - 1)
  }

  /** The bitmap has 4096 bits a block and 32 a word, the first lowest. */
  function DiskBit(disk: Disk, bmapstart: nat, b: nat): bool {
    Halved(WordAt(disk, bmapstart + b / 4096, b % 4096 / 32), b % 32) % 2 == 1
  }

  /** Byte k of block b: the lowest of a word comes first. */
  function DiskByte(disk: Disk, b: nat, k: nat): nat {
    var w := WordAt(disk, b, k / 4);
    if k % 4 == 0 then w % 256
    else if k % 4 == 1 then w / 256 % 256
    else if k % 4 == 2 then w / 65536 % 256
    else w / 16777216 % 256
  }

  /** Where block k of a file is: the inode names the first twelve, and its last address is
      that of a block that names the others. */
  function DiskAddr(disk: Disk, addrs: seq<nat>, k: nat): nat
    requires |addrs| == 13
  {
    if k < 12 then addrs[k] else WordAt(disk, addrs[12], k - 12)
  }

  function DiskFile(disk: Disk, inodestart: nat, i: nat): seq<nat> {
    var n := DiskInode(disk, inodestart, i);
    seq<nat>(n.size, k requires 0 <= k < n.size => DiskByte(disk, DiskAddr(disk, n.addrs, k / 512), k % 512))
  }

  /** The inodes, the files and the bitmap that are read off a disk are a's. */
  ghost predicate ReadsAs(disk: Disk, sb: F.Super, a: Version)
    requires Sound(sb, a)
  {
    && (forall i :: 0 <= i < |a.d| ==> DiskInode(disk, sb.inodestart, i) == a.d[i])
    && (forall i :: 0 <= i < |a.d| ==> DiskFile(disk, sb.inodestart, i) == FilesOf(sb, a.s, a.d)[i])
    && (forall b: nat :: b < sb.size ==> (DiskBit(disk, sb.bmapstart, b) <==> b < |a.s.bits| && a.s.bits[b]))
  }

  // ---------- what is read is what is there ----------

  /** From the inodes on, the disk is as the file system makes it. */
  ghost predicate Carries(disk: Disk, sb: F.Super, a: Version) {
    |disk| == |a.s.blocks|
    && forall b: nat :: sb.inodestart <= b < |disk| ==> disk[b] == BlockOf(sb, a.s, a.d, disk, b)
  }

  lemma CarriesAt(disk: Disk, sb: F.Super, a: Version, b: nat)
    requires Carries(disk, sb, a) && sb.inodestart <= b < |disk|
    ensures disk[b] == BlockOf(sb, a.s, a.d, disk, b)
  {
  }

  lemma InodeRead(disk: Disk, sb: F.Super, a: Version, i: nat)
    requires Carries(disk, sb, a) && Layout(sb, |a.d|) && i < |a.d| && sb.meta <= |disk| && |a.d[i].addrs| == 13
    ensures DiskInode(disk, sb.inodestart, i) == a.d[i]
  {
    var b, j := sb.inodestart + i / 8, i % 8 * 16;
    InodeWordRead(disk, sb, a, i, 2);
    hide Carries, Layout, InodeWord, WordAt;
    forall n: nat | n < 13 ensures DiskInode(disk, sb.inodestart, i).addrs[n] == a.d[i].addrs[n] {
      InodeWordRead(disk, sb, a, i, 3 + n);
      assert j + 3 + n == j + (3 + n);
    }
    assert DiskInode(disk, sb.inodestart, i).addrs == a.d[i].addrs;
  }

  lemma InodeWordRead(disk: Disk, sb: F.Super, a: Version, i: nat, w: nat)
    requires Carries(disk, sb, a) && Layout(sb, |a.d|) && i < |a.d| && sb.meta <= |disk| && |a.d[i].addrs| == 13
    requires 2 <= w < 16
    ensures WordAt(disk, sb.inodestart + i / 8, i % 8 * 16 + w)
              == if w == 2 then a.d[i].size else a.d[i].addrs[w - 3]
  {
    var b := sb.inodestart + i / 8;
    InodeBlock(sb, |a.d|, i);
    CarriesAt(disk, sb, a, b);
    assert disk[b] == InodeWords(a.d, i / 8);
    hide Carries, Layout;
    assert (i % 8 * 16 + w) / 16 == i % 8 && (i % 8 * 16 + w) % 16 == w;
  }

  lemma InodeBlock(sb: F.Super, n: nat, i: nat)
    requires Layout(sb, n) && i < n
    ensures sb.inodestart + i / 8 < sb.bmapstart
  {
  }

  lemma {:induction false} BitsBound(bits: seq<bool>, lo: nat, n: nat)
    ensures BitsWord(bits, lo, n) < Pow2(n)
  {
    if n > 0 { BitsBound(bits, lo, n - 1); }
  }

  /** The lowest bit, and the others. */
  lemma {:induction false} BitsFirst(bits: seq<bool>, lo: nat, n: nat)
    requires n > 0
    ensures BitsWord(bits, lo, n) == 2 * BitsWord(bits, lo + 1, n - 1) + if lo < |bits| && bits[lo] then 1 else 0
  {
    if n > 1 { BitsFirst(bits, lo, n - 1); }
  }

  lemma {:induction false} BitRead(bits: seq<bool>, lo: nat, n: nat, m: nat)
    requires m < n
    ensures Halved(BitsWord(bits, lo, n), m) % 2 == if lo + m < |bits| && bits[lo + m] then 1 else 0
    decreases n
  {
    BitsFirst(bits, lo, n);
    if m > 0 { BitRead(bits, lo + 1, n - 1, m - 1); }
  }

  lemma MapRead(disk: Disk, sb: F.Super, a: Version, n: nat, b: nat)
    requires Carries(disk, sb, a) && Layout(sb, n) && b < sb.size && sb.meta <= |disk|
    ensures DiskBit(disk, sb.bmapstart, b) <==> b < |a.s.bits| && a.s.bits[b]
  {
    var k, j := b / 4096, b % 4096 / 32;
    MapBlock(sb, n, b);
    CarriesAt(disk, sb, a, sb.bmapstart + k);
    hide Carries, Layout;
    assert disk[sb.bmapstart + k] == MapWords(a.s.bits, k);
    assert WordAt(disk, sb.bmapstart + k, j) == BitsWord(a.s.bits, k * 4096 + 32 * j, 32);
    assert k * 4096 + 32 * j + b % 32 == b;
    BitRead(a.s.bits, k * 4096 + 32 * j, 32, b % 32);
  }

  lemma MapBlock(sb: F.Super, n: nat, b: nat)
    requires Layout(sb, n) && b < sb.size
    ensures sb.inodestart <= sb.bmapstart + b / 4096 < sb.meta
  {
  }

  lemma DataRead(disk: Disk, sb: F.Super, a: Version, n: nat, b: nat)
    requires Carries(disk, sb, a) && Layout(sb, n) && sb.meta <= b < |disk|
    ensures forall j: nat :: j < 128 ==> WordAt(disk, b, j) == F.Word(a.s.blocks[b], j)
    ensures forall k: nat :: k < 512 ==> DiskByte(disk, b, k) == a.s.blocks[b][k]
  {
    CarriesAt(disk, sb, a, b);
    assert disk[b] == DataWords(a.s.blocks[b]);
    hide Carries, Layout;
    forall k: nat | k < 512 ensures DiskByte(disk, b, k) == a.s.blocks[b][k] {
      WordBytes(a.s.blocks[b], k);
      assert WordAt(disk, b, k / 4) == F.Word(a.s.blocks[b], k / 4);
    }
  }

  lemma WordBytes(b: F.Block, k: nat)
    requires k < 512
    ensures var w := F.Word(b, k / 4);
            b[k] == if k % 4 == 0 then w % 256 else if k % 4 == 1 then w / 256 % 256
                    else if k % 4 == 2 then w / 65536 % 256 else w / 16777216 % 256
  {
    var j := k / 4;
    assert k == 4 * j + k % 4;
    FourBytes(b[4 * j], b[4 * j + 1], b[4 * j + 2], b[4 * j + 3]);
  }

  lemma FourBytes(x: F.Byte, y: F.Byte, z: F.Byte, u: F.Byte)
    ensures var w := x as int + 256 * y as int + 65536 * z as int + 16777216 * u as int;
            w % 256 == x && w / 256 % 256 == y && w / 65536 % 256 == z && w / 16777216 % 256 == u
  {
    var w := x as int + 256 * y as int + 65536 * z as int + 16777216 * u as int;
    assert w / 256 == y as int + 256 * z as int + 65536 * u as int;
    assert w / 65536 == z as int + 256 * u as int;
    assert w / 16777216 == u;
  }

  lemma FileRead(disk: Disk, sb: F.Super, a: Version, i: nat)
    requires Carries(disk, sb, a) && Layout(sb, |a.d|) && Sound(sb, a) && i < |a.d|
    ensures DiskInode(disk, sb.inodestart, i) == a.d[i]
    ensures DiskFile(disk, sb.inodestart, i) == FilesOf(sb, a.s, a.d)[i]
  {
    var n := a.s.nodes[i];
    assert F.Shape(sb, a.s.blocks, n);
    InodeRead(disk, sb, a, i);
    F.FlatSize(F.Data(sb, a.s.blocks, n));
    forall k: nat | k < a.d[i].size
      ensures FilesOf(sb, a.s, a.d)[i][k] == DiskByte(disk, DiskAddr(disk, a.d[i].addrs, k / 512), k % 512)
    {
      FileByte(disk, sb, a, i, k);
    }
  }

  lemma AddrRead(disk: Disk, sb: F.Super, a: Version, i: nat, pos: nat)
    requires Carries(disk, sb, a) && Layout(sb, |a.d|) && Sound(sb, a) && i < |a.d| && pos < Blocks(a.d[i].size)
    ensures |a.d[i].addrs| == 13 && sb.meta <= F.At(a.s.blocks, a.s.nodes[i], pos) < sb.size
    ensures DiskAddr(disk, a.d[i].addrs, pos) == F.At(a.s.blocks, a.s.nodes[i], pos)
  {
    var n := a.s.nodes[i];
    assert F.Shape(sb, a.s.blocks, n);
    assert F.Used(n, pos);
    hide Sound, F.Inv, Carries, Layout;
    if pos >= 12 {
      assert F.Used(n, F.INDIRECT) && F.At(a.s.blocks, n, F.INDIRECT) == n.addrs[12];
      SoundSize(sb, a);
      CarriesSize(disk, sb, a);
      DataRead(disk, sb, a, |a.d|, n.addrs[12]);
    }
  }

  lemma FileByte(disk: Disk, sb: F.Super, a: Version, i: nat, k: nat)
    requires Carries(disk, sb, a) && Layout(sb, |a.d|) && Sound(sb, a) && i < |a.d| && k < a.d[i].size
    ensures |a.d[i].addrs| == 13 && k < |FilesOf(sb, a.s, a.d)[i]|
    ensures FilesOf(sb, a.s, a.d)[i][k] == DiskByte(disk, DiskAddr(disk, a.d[i].addrs, k / 512), k % 512)
  {
    var n, pos := a.s.nodes[i], k / 512;
    SoundSize(sb, a);
    assert F.Shape(sb, a.s.blocks, n) && Synced(a.d[i], n);
    assert pos < Blocks(a.d[i].size) == n.ext;
    hide Sound, F.Inv, F.Shape, Carries, Layout, DiskByte, DiskAddr, F.At;
    F.FlatAt(F.Data(sb, a.s.blocks, n), k);
    AddrRead(disk, sb, a, i, pos);
    CarriesSize(disk, sb, a);
    DataRead(disk, sb, a, |a.d|, F.At(a.s.blocks, n, pos));
  }

  /** What is read off such a disk is the file system: every inode, every bit, every byte. */
  lemma ReadBack(disk: Disk, sb: F.Super, a: Version)
    requires Carries(disk, sb, a) && Layout(sb, |a.d|) && Sound(sb, a)
    ensures ReadsAs(disk, sb, a)
  {
    SoundSize(sb, a);
    hide Sound, Carries, Layout, DiskInode, DiskFile, DiskBit, FilesOf;
    forall i | 0 <= i < |a.d|
      ensures DiskInode(disk, sb.inodestart, i) == a.d[i]
      ensures DiskFile(disk, sb.inodestart, i) == FilesOf(sb, a.s, a.d)[i]
    {
      FileRead(disk, sb, a, i);
    }
    CarriesSize(disk, sb, a);
    forall b: nat | b < sb.size
      ensures DiskBit(disk, sb.bmapstart, b) <==> b < |a.s.bits| && a.s.bits[b]
    {
      MapRead(disk, sb, a, |a.d|, b);
    }
  }

  lemma SoundSize(sb: F.Super, a: Version)
    requires Sound(sb, a)
    ensures sb.meta <= |a.s.blocks| == sb.size && |a.d| == |a.s.nodes| && F.Inv(sb, a.s)
  {
  }

  lemma CarriesSize(disk: Disk, sb: F.Super, a: Version)
    requires Carries(disk, sb, a)
    ensures |disk| == |a.s.blocks|
  {
  }
}
