/**
 Inodes over disk blocks (fs.c): which block holds which part of which file, the
 free bitmap, and the flat bytes a file stands for. Positions of an inode are its
 data blocks 0..MAXFILE-1 and its indirect block, INDIRECT.
*/
module FsModel {
  const BSIZE: nat := 512
  const NDIRECT: nat := 12
  const NINDIRECT: nat := BSIZE / 4
  const MAXFILE: nat := NDIRECT + NINDIRECT
  /** The position of the indirect block itself. */
  const INDIRECT: nat := MAXFILE
  /** Bitmap bits per block, and inodes per block. */
  const BPB: nat := BSIZE * 8
  const IPB: nat := 8

  type Byte = x: int | 0 <= x < 256
  type Block = b: seq<Byte> | |b| == BSIZE witness seq(BSIZE, _ => 0)

  datatype Super = Super(size: nat, meta: nat, inodestart: nat, bmapstart: nat)

  /** An inode as it currently is, on disk or cached: its block numbers, how many data
      blocks it has, and whether it has an indirect block. */
  datatype Node = Node(addrs: seq<nat>, ext: nat, ind: bool)

  function ZeroBlock(): Block {
    seq(BSIZE, _ => 0)
  }

  // ---------- 32-bit words in a block, low byte first ----------

  function Word(b: Block, j: nat): nat
    requires j < NINDIRECT
  {
    b[4 * j] as int + 256 * b[4 * j + 1] as int + 0x1_0000 * b[4 * j + 2] as int + 0x100_0000 * b[4 * j + 3] as int
  }

  function PutWord(b: Block, j: nat, w: nat): Block
    requires j < NINDIRECT
  {
    b[4 * j := w % 256][4 * j + 1 := w / 256 % 256][4 * j + 2 := w / 0x1_0000 % 256][4 * j + 3 := w / 0x100_0000 % 256]
  }

  lemma WordAfterPut(b: Block, j: nat, w: nat, k: nat)
    requires j < NINDIRECT && k < NINDIRECT && w < 0x1_0000_0000
    ensures Word(PutWord(b, j, w), k) == if k == j then w else Word(b, k)
  {
  }

  // ---------- where a file's blocks are ----------

  /** The block at a position, 0 for none. */
  function At(blocks: seq<Block>, n: Node, pos: nat): nat
    requires |n.addrs| == NDIRECT + 1
  {
    if pos < NDIRECT then n.addrs[pos]
    else if pos == INDIRECT then n.addrs[NDIRECT]
    else if pos < MAXFILE && 0 < n.addrs[NDIRECT] < |blocks| then Word(blocks[n.addrs[NDIRECT]], pos - NDIRECT)
    else 0
  }

  predicate Used(n: Node, pos: nat) {
    if pos == INDIRECT then n.ind else pos < n.ext
  }

  /** No holes: the blocks below ext are there, and no others. */
  ghost predicate Shape(sb: Super, blocks: seq<Block>, n: Node) {
    && |n.addrs| == NDIRECT + 1 && n.ext <= MAXFILE && (n.ext > NDIRECT ==> n.ind)
    && (forall pos: nat :: pos <= INDIRECT ==> (At(blocks, n, pos) != 0 <==> Used(n, pos)))
    && (forall pos: nat :: pos <= INDIRECT && Used(n, pos) ==> sb.meta <= At(blocks, n, pos) < sb.size)
  }

  /** Every block in use belongs to one position of one inode. */
  ghost predicate OwnInv(sb: Super, blocks: seq<Block>, nodes: seq<Node>, owner: map<nat, (nat, nat)>) {
    && (forall i :: 0 <= i < |nodes| ==> Shape(sb, blocks, nodes[i]))
    && (forall i, pos: nat :: 0 <= i < |nodes| && pos <= INDIRECT && Used(nodes[i], pos) ==>
          Owns(blocks, nodes, owner, i, pos))
    && (forall b :: b in owner ==> OwnedBy(blocks, nodes, b, owner[b].0, owner[b].1))
  }

  ghost predicate OwnedBy(blocks: seq<Block>, nodes: seq<Node>, b: nat, i: nat, pos: nat) {
    && i < |nodes| && pos <= INDIRECT && |nodes[i].addrs| == NDIRECT + 1
    && Used(nodes[i], pos) && At(blocks, nodes[i], pos) == b
  }

  ghost predicate Owns(blocks: seq<Block>, nodes: seq<Node>, owner: map<nat, (nat, nat)>, i: nat, pos: nat)
    requires i < |nodes| && |nodes[i].addrs| == NDIRECT + 1
  {
    At(blocks, nodes[i], pos) in owner && owner[At(blocks, nodes[i], pos)] == (i, pos)
  }

  /** A bit is set exactly for metadata and for owned blocks. */
  ghost predicate BitInv(sb: Super, bits: seq<bool>, owner: map<nat, (nat, nat)>) {
    && |bits| == sb.size
    && forall b: nat :: b < sb.size ==> (bits[b] <==> b < sb.meta || b in owner)
  }

  /** The disk as file-system code sees it, through the cache. */
  datatype Fs = Fs(bits: seq<bool>, blocks: seq<Block>, nodes: seq<Node>, owner: map<nat, (nat, nat)>)

  ghost predicate Inv(sb: Super, s: Fs) {
    && 0 < sb.meta <= sb.size < 0x1_0000_0000 && |s.blocks| == sb.size
    && OwnInv(sb, s.blocks, s.nodes, s.owner)
    && BitInv(sb, s.bits, s.owner)
  }

  // ---------- a file's bytes ----------

  /** The data blocks of a file, in order. */
  ghost function Data(sb: Super, blocks: seq<Block>, n: Node): (d: seq<Block>)
    requires Shape(sb, blocks, n) && |blocks| == sb.size
    ensures |d| == n.ext
    ensures forall k :: 0 <= k < n.ext ==> d[k] == blocks[At(blocks, n, k)]
  {
    Upto(sb, blocks, n, n.ext)
  }

  ghost function Upto(sb: Super, blocks: seq<Block>, n: Node, hi: nat): (d: seq<Block>)
    requires Shape(sb, blocks, n) && |blocks| == sb.size && hi <= n.ext
    ensures |d| == hi
    ensures forall k :: 0 <= k < hi ==> d[k] == blocks[At(blocks, n, k)]
  {
    if hi == 0 then [] else Upto(sb, blocks, n, hi - 1) + [blocks[At(blocks, n, hi - 1)]]
  }

  function Flat(d: seq<Block>): seq<Byte> {
    if d == [] then [] else Flat(d[..|d| - 1]) + d[|d| - 1]
  }

  lemma {:induction false} FlatSize(d: seq<Block>)
    ensures |Flat(d)| == BSIZE * |d|
  {
    if d != [] { FlatSize(d[..|d| - 1]); }
  }

  /** Byte k of a file is byte k % BSIZE of its block k / BSIZE. */
  lemma {:induction false} FlatAt(d: seq<Block>, k: nat)
    requires k < BSIZE * |d|
    ensures |Flat(d)| == BSIZE * |d| && k / BSIZE < |d| && Flat(d)[k] == d[k / BSIZE][k % BSIZE]
  {
    var front := d[..|d| - 1];
    FlatSize(d);
    FlatSize(front);
    if k < BSIZE * |front| { FlatAt(front, k); }
  }

  /** src written over b from byte o. */
  function Patch(b: Block, o: nat, src: seq<Byte>): Block
    requires o + |src| <= BSIZE
  {
    b[..o] + src + b[o + |src|..]
  }

  // ---------- taking a block ----------

  /** b is in use neither for metadata nor for a file. */
  ghost predicate IsFree(sb: Super, s: Fs, b: nat) {
    b < sb.size && |s.bits| == sb.size && !s.bits[b]
  }

  /** balloc, bmap: inode i gets b as its next data block, named in the inode itself. */
  function NewDirect(s: Fs, i: nat, b: nat): Fs
    requires i < |s.nodes| && b < |s.bits| && b < |s.blocks|
    requires |s.nodes[i].addrs| == NDIRECT + 1 && s.nodes[i].ext < NDIRECT
  {
    var n := s.nodes[i];
    Fs(s.bits[b := true], s.blocks[b := ZeroBlock()], s.nodes[i := n.(addrs := n.addrs[n.ext := b], ext := n.ext + 1)],
       s.owner[b := (i, n.ext)])
  }

  /** ... or as its indirect block ... */
  function NewIndirect(s: Fs, i: nat, b: nat): Fs
    requires i < |s.nodes| && b < |s.bits| && b < |s.blocks| && |s.nodes[i].addrs| == NDIRECT + 1
  {
    var n := s.nodes[i];
    Fs(s.bits[b := true], s.blocks[b := ZeroBlock()], s.nodes[i := n.(addrs := n.addrs[NDIRECT := b], ind := true)],
       s.owner[b := (i, INDIRECT)])
  }

  /** ... or as its next data block, named in the indirect block. */
  function NewEntry(s: Fs, i: nat, b: nat): Fs
    requires i < |s.nodes| && b < |s.bits| && b < |s.blocks| && |s.nodes[i].addrs| == NDIRECT + 1
    requires NDIRECT <= s.nodes[i].ext < MAXFILE && s.nodes[i].addrs[NDIRECT] < |s.blocks|
  {
    var n := s.nodes[i];
    var ib := n.addrs[NDIRECT];
    Fs(s.bits[b := true], s.blocks[b := ZeroBlock()][ib := PutWord(s.blocks[ib], n.ext - NDIRECT, b)],
       s.nodes[i := n.(ext := n.ext + 1)], s.owner[b := (i, n.ext)])
  }

  lemma FreeUnowned(sb: Super, s: Fs, b: nat)
    requires Inv(sb, s) && IsFree(sb, s, b)
    ensures 0 < sb.meta <= b && b !in s.owner
    ensures forall k, pos: nat :: 0 <= k < |s.nodes| && pos <= INDIRECT && Used(s.nodes[k], pos) ==>
              At(s.blocks, s.nodes[k], pos) != b
  {
    forall k, pos: nat | 0 <= k < |s.nodes| && pos <= INDIRECT && Used(s.nodes[k], pos)
      ensures At(s.blocks, s.nodes[k], pos) != b
    {
      assert Owns(s.blocks, s.nodes, s.owner, k, pos);
    }
  }

  /** Where inode k's position is, after inode i's node and some blocks changed. */
  lemma SameAt(sb: Super, blocks: seq<Block>, blocks': seq<Block>, n: Node, pos: nat)
    requires Shape(sb, blocks, n) && |blocks'| == |blocks| == sb.size && pos <= INDIRECT
    requires n.ind ==> n.addrs[NDIRECT] < |blocks| && blocks'[n.addrs[NDIRECT]] == blocks[n.addrs[NDIRECT]]
    ensures At(blocks', n, pos) == At(blocks, n, pos)
  {
    assert At(blocks, n, INDIRECT) == n.addrs[NDIRECT];
    assert Used(n, INDIRECT) == n.ind;
  }

  lemma SameShape(sb: Super, blocks: seq<Block>, blocks': seq<Block>, n: Node)
    requires Shape(sb, blocks, n) && |blocks'| == |blocks| == sb.size
    requires n.ind ==> n.addrs[NDIRECT] < |blocks| && blocks'[n.addrs[NDIRECT]] == blocks[n.addrs[NDIRECT]]
    ensures Shape(sb, blocks', n)
    ensures forall pos: nat :: pos <= INDIRECT ==> At(blocks', n, pos) == At(blocks, n, pos)
  {
    forall pos: nat | pos <= INDIRECT ensures At(blocks', n, pos) == At(blocks, n, pos) {
      SameAt(sb, blocks, blocks', n, pos);
    }
  }

  /** The same block at every position. */
  ghost predicate AtSame(blocks: seq<Block>, n: Node, blocks': seq<Block>, n': Node, but: nat)
    requires |n.addrs| == |n'.addrs| == NDIRECT + 1
  {
    forall pos: nat :: pos <= INDIRECT && pos != but ==> At(blocks', n', pos) == At(blocks, n, pos)
  }

  /** Inode i has one more position, at b, and the other inodes are as they were. */
  ghost predicate GainedBy(sb: Super, s: Fs, t: Fs, i: nat, at: nat, b: nat) {
    && i < |s.nodes| == |t.nodes| && |t.blocks| == sb.size && at <= INDIRECT
    && t.owner == s.owner[b := (i, at)]
    && (b < |s.bits| && t.bits == s.bits[b := true])
    && (forall k :: 0 <= k < |s.nodes| ==> Shape(sb, t.blocks, t.nodes[k]) && |s.nodes[k].addrs| == NDIRECT + 1)
    && (forall k :: 0 <= k < |s.nodes| && k != i ==>
          t.nodes[k] == s.nodes[k] && AtSame(s.blocks, s.nodes[k], t.blocks, t.nodes[k], INDIRECT + 1))
    && AtSame(s.blocks, s.nodes[i], t.blocks, t.nodes[i], at)
    && At(t.blocks, t.nodes[i], at) == b
    && !Used(s.nodes[i], at)
    && (forall pos: nat :: pos <= INDIRECT ==> (Used(t.nodes[i], pos) <==> pos == at || Used(s.nodes[i], pos)))
  }

  lemma GainOwned(sb: Super, s: Fs, t: Fs, i: nat, at: nat, b: nat, k: nat, pos: nat)
    requires Inv(sb, s) && IsFree(sb, s, b) && GainedBy(sb, s, t, i, at, b)
    requires k < |t.nodes| && pos <= INDIRECT && Used(t.nodes[k], pos)
    ensures Owns(t.blocks, t.nodes, t.owner, k, pos)
  {
    FreeUnowned(sb, s, b);
    if (k, pos) != (i, at) {
      assert Used(s.nodes[k], pos) && Owns(s.blocks, s.nodes, s.owner, k, pos);
      assert At(t.blocks, t.nodes[k], pos) == At(s.blocks, s.nodes[k], pos);
    }
  }

  lemma GainKeeps(sb: Super, s: Fs, t: Fs, i: nat, at: nat, b: nat)
    requires Inv(sb, s) && IsFree(sb, s, b) && GainedBy(sb, s, t, i, at, b)
    ensures Inv(sb, t)
  {
    forall k, pos: nat | 0 <= k < |t.nodes| && pos <= INDIRECT && Used(t.nodes[k], pos)
      ensures Owns(t.blocks, t.nodes, t.owner, k, pos)
    {
      GainOwned(sb, s, t, i, at, b, k, pos);
    }
    forall x | x in t.owner ensures OwnedBy(t.blocks, t.nodes, x, t.owner[x].0, t.owner[x].1) {
      assert x != b ==> OwnedBy(s.blocks, s.nodes, x, s.owner[x].0, s.owner[x].1);
    }
  }

  /** The contents of every data block that s has are the same in t. */
  ghost predicate DataSame(s: Fs, t: Fs) {
    && |t.nodes| == |s.nodes| && |t.blocks| == |s.blocks|
    && (forall k, pos: nat :: 0 <= k < |s.nodes| && pos < s.nodes[k].ext ==>
          BlockSame(s.blocks, s.nodes[k], t.blocks, pos))
  }

  ghost predicate BlockSame(blocks: seq<Block>, n: Node, blocks': seq<Block>, pos: nat) {
    && |n.addrs| == NDIRECT + 1
    && At(blocks, n, pos) < |blocks| == |blocks'| && blocks'[At(blocks, n, pos)] == blocks[At(blocks, n, pos)]
  }

  lemma SameData(sb: Super, blocks: seq<Block>, n: Node, blocks': seq<Block>, n': Node)
    requires Shape(sb, blocks, n) && Shape(sb, blocks', n') && |blocks| == |blocks'| == sb.size && n'.ext == n.ext
    requires AtSame(blocks, n, blocks', n', INDIRECT + 1)
    requires forall pos: nat :: pos < n.ext ==> BlockSame(blocks, n, blocks', pos)
    ensures Data(sb, blocks', n') == Data(sb, blocks, n)
  {
    var d, d' := Data(sb, blocks, n), Data(sb, blocks', n');
    forall pos: nat | pos < n.ext ensures d'[pos] == d[pos] {
      assert BlockSame(blocks, n, blocks', pos) && At(blocks', n', pos) == At(blocks, n, pos);
    }
  }

  /** Taking a data block adds a zeroed block to inode i's file ... */
  lemma GainData(sb: Super, s: Fs, t: Fs, i: nat, b: nat)
    requires Inv(sb, s) && IsFree(sb, s, b) && i < |s.nodes| && GainedBy(sb, s, t, i, s.nodes[i].ext, b)
    requires DataSame(s, t) && t.nodes[i].ext == s.nodes[i].ext + 1 && b < |t.blocks| && t.blocks[b] == ZeroBlock()
    ensures Data(sb, t.blocks, t.nodes[i]) == Data(sb, s.blocks, s.nodes[i]) + [ZeroBlock()]
  {
    var d, d' := Data(sb, s.blocks, s.nodes[i]), Data(sb, t.blocks, t.nodes[i]);
    forall pos: nat | pos < s.nodes[i].ext ensures d'[pos] == d[pos] {
      assert BlockSame(s.blocks, s.nodes[i], t.blocks, pos);
    }
  }

  /** ... and leaves every other file's data alone. */
  lemma GainOthers(sb: Super, s: Fs, t: Fs, i: nat, at: nat, b: nat, k: nat)
    requires Inv(sb, s) && i < |s.nodes| && GainedBy(sb, s, t, i, at, b) && DataSame(s, t) && k < |s.nodes|
    requires k != i || (at == INDIRECT && t.nodes[i].ext == s.nodes[i].ext)
    ensures k < |t.nodes| && Data(sb, t.blocks, t.nodes[k]) == Data(sb, s.blocks, s.nodes[k])
  {
    forall pos: nat | pos < s.nodes[k].ext
      ensures At(t.blocks, t.nodes[k], pos) == At(s.blocks, s.nodes[k], pos)
      ensures BlockSame(s.blocks, s.nodes[k], t.blocks, pos)
    {
    }
    var d, d' := Data(sb, s.blocks, s.nodes[k]), Data(sb, t.blocks, t.nodes[k]);
    forall pos: nat | pos < s.nodes[k].ext ensures d'[pos] == d[pos] {
      assert BlockSame(s.blocks, s.nodes[k], t.blocks, pos);
    }
  }

  // The three ways of taking a block are gains.

  /** A block written does not move what no inode finds through it. */
  lemma NodeUntouched(sb: Super, s: Fs, k: nat, b: nat, x: Block)
    requires Inv(sb, s) && k < |s.nodes| && b < sb.size && (s.nodes[k].ind ==> s.nodes[k].addrs[NDIRECT] != b)
    ensures Shape(sb, s.blocks[b := x], s.nodes[k])
    ensures AtSame(s.blocks, s.nodes[k], s.blocks[b := x], s.nodes[k], INDIRECT + 1)
  {
    var n := s.nodes[k];
    assert n.ind ==> Used(n, INDIRECT) && At(s.blocks, n, INDIRECT) == n.addrs[NDIRECT];
    SameShape(sb, s.blocks, s.blocks[b := x], n);
  }

  /** No inode finds anything through a free block. */
  lemma FreeUntouched(sb: Super, s: Fs, b: nat)
    requires Inv(sb, s) && IsFree(sb, s, b)
    ensures var blocks' := s.blocks[b := ZeroBlock()];
            forall k :: 0 <= k < |s.nodes| ==>
              Shape(sb, blocks', s.nodes[k]) && AtSame(s.blocks, s.nodes[k], blocks', s.nodes[k], INDIRECT + 1)
    ensures DataSame(s, s.(blocks := s.blocks[b := ZeroBlock()]))
  {
    FreeUnowned(sb, s, b);
    forall k | 0 <= k < |s.nodes|
      ensures Shape(sb, s.blocks[b := ZeroBlock()], s.nodes[k])
      ensures AtSame(s.blocks, s.nodes[k], s.blocks[b := ZeroBlock()], s.nodes[k], INDIRECT + 1)
    {
      assert s.nodes[k].ind ==> Used(s.nodes[k], INDIRECT) && At(s.blocks, s.nodes[k], INDIRECT) != b;
      NodeUntouched(sb, s, k, b, ZeroBlock());
    }
  }

  lemma NewDirectGains(sb: Super, s: Fs, i: nat, b: nat)
    requires Inv(sb, s) && IsFree(sb, s, b) && i < |s.nodes| && |s.nodes[i].addrs| == NDIRECT + 1
    requires s.nodes[i].ext < NDIRECT
    ensures GainedBy(sb, s, NewDirect(s, i, b), i, s.nodes[i].ext, b) && DataSame(s, NewDirect(s, i, b))
  {
    var t, n := NewDirect(s, i, b), s.nodes[i];
    FreeUnowned(sb, s, b);
    FreeUntouched(sb, s, b);
    assert Shape(sb, t.blocks, n) && AtSame(s.blocks, n, t.blocks, n, INDIRECT + 1);
    assert AtSame(s.blocks, n, t.blocks, t.nodes[i], n.ext) by {
      forall pos: nat | pos <= INDIRECT && pos != n.ext
        ensures At(t.blocks, t.nodes[i], pos) == At(t.blocks, n, pos)
      {
      }
    }
    assert Shape(sb, t.blocks, t.nodes[i]);
  }

  lemma NewIndirectGains(sb: Super, s: Fs, i: nat, b: nat)
    requires Inv(sb, s) && IsFree(sb, s, b) && i < |s.nodes| && |s.nodes[i].addrs| == NDIRECT + 1
    requires !s.nodes[i].ind
    ensures GainedBy(sb, s, NewIndirect(s, i, b), i, INDIRECT, b) && DataSame(s, NewIndirect(s, i, b))
  {
    var t, n := NewIndirect(s, i, b), s.nodes[i];
    FreeUnowned(sb, s, b);
    FreeUntouched(sb, s, b);
    assert Shape(sb, t.blocks, n) && AtSame(s.blocks, n, t.blocks, n, INDIRECT + 1);
    assert n.addrs[NDIRECT] == 0 by { assert !Used(n, INDIRECT) && At(s.blocks, n, INDIRECT) == n.addrs[NDIRECT]; }
    forall j | 0 <= j < NINDIRECT ensures Word(ZeroBlock(), j) == 0 { }
    assert AtSame(s.blocks, n, t.blocks, t.nodes[i], INDIRECT);
    assert Shape(sb, t.blocks, t.nodes[i]);
  }

  lemma NewEntryGains(sb: Super, s: Fs, i: nat, b: nat)
    requires Inv(sb, s) && IsFree(sb, s, b) && i < |s.nodes| && |s.nodes[i].addrs| == NDIRECT + 1
    requires NDIRECT <= s.nodes[i].ext < MAXFILE && s.nodes[i].ind
    ensures s.nodes[i].addrs[NDIRECT] < |s.blocks|
    ensures GainedBy(sb, s, NewEntry(s, i, b), i, s.nodes[i].ext, b) && DataSame(s, NewEntry(s, i, b))
    ensures NewEntry(s, i, b).blocks[b] == ZeroBlock()
  {
    assert Used(s.nodes[i], INDIRECT) && At(s.blocks, s.nodes[i], INDIRECT) == s.nodes[i].addrs[NDIRECT];
    var t, n, ib := NewEntry(s, i, b), s.nodes[i], s.nodes[i].addrs[NDIRECT];
    FreeUnowned(sb, s, b);
    forall k | 0 <= k < |s.nodes| && k != i
      ensures Shape(sb, t.blocks, s.nodes[k]) && AtSame(s.blocks, s.nodes[k], t.blocks, s.nodes[k], INDIRECT + 1)
    {
      if s.nodes[k].ind {
        assert Used(s.nodes[k], INDIRECT) && At(s.blocks, s.nodes[k], INDIRECT) != b;
        Apart(sb, s, i, INDIRECT, k, INDIRECT);
      }
      SameShape(sb, s.blocks, t.blocks, s.nodes[k]);
    }
    NewEntryNode(sb, s, i, b);
    forall k, pos: nat | 0 <= k < |s.nodes| && pos < s.nodes[k].ext
      ensures BlockSame(s.blocks, s.nodes[k], t.blocks, pos)
    {
      Apart(sb, s, i, INDIRECT, k, pos);
    }
  }

  lemma NewEntryNode(sb: Super, s: Fs, i: nat, b: nat)
    requires Inv(sb, s) && i < |s.nodes| && |s.nodes[i].addrs| == NDIRECT + 1 && sb.meta <= b < sb.size
    requires NDIRECT <= s.nodes[i].ext < MAXFILE && s.nodes[i].ind && s.nodes[i].addrs[NDIRECT] < |s.blocks|
    requires b < |s.bits| && b != s.nodes[i].addrs[NDIRECT]
    ensures var t := NewEntry(s, i, b);
            && AtSame(s.blocks, s.nodes[i], t.blocks, t.nodes[i], s.nodes[i].ext)
            && At(t.blocks, t.nodes[i], s.nodes[i].ext) == b
            && Shape(sb, t.blocks, t.nodes[i])
  {
    var t, n, ib := NewEntry(s, i, b), s.nodes[i], s.nodes[i].addrs[NDIRECT];
    assert Used(n, INDIRECT) && At(s.blocks, n, INDIRECT) == ib;
    forall pos: nat | pos <= INDIRECT
      ensures At(t.blocks, t.nodes[i], pos) == if pos == n.ext then b else At(s.blocks, n, pos)
    {
      if NDIRECT <= pos < MAXFILE { WordAfterPut(s.blocks[ib], n.ext - NDIRECT, b, pos - NDIRECT); }
    }
  }

  /** Different positions, of the same inode or not, are at different blocks. */
  lemma Apart(sb: Super, s: Fs, i: nat, p: nat, k: nat, q: nat)
    requires Inv(sb, s) && i < |s.nodes| && k < |s.nodes| && p <= INDIRECT && q <= INDIRECT
    requires Used(s.nodes[i], p) && Used(s.nodes[k], q)
    ensures |s.nodes[i].addrs| == |s.nodes[k].addrs| == NDIRECT + 1
    ensures At(s.blocks, s.nodes[i], p) < |s.blocks| && At(s.blocks, s.nodes[k], q) < |s.blocks|
    ensures At(s.blocks, s.nodes[i], p) == At(s.blocks, s.nodes[k], q) ==> i == k && p == q
  {
    assert Owns(s.blocks, s.nodes, s.owner, i, p) && Owns(s.blocks, s.nodes, s.owner, k, q);
  }

  // ---------- writing a data block ----------

  function WriteBlock(s: Fs, i: nat, pos: nat, x: Block): Fs
    requires i < |s.nodes| && |s.nodes[i].addrs| == NDIRECT + 1 && At(s.blocks, s.nodes[i], pos) < |s.blocks|
  {
    s.(blocks := s.blocks[At(s.blocks, s.nodes[i], pos) := x])
  }

  lemma WriteBlockAt(sb: Super, s: Fs, i: nat, pos: nat, x: Block, k: nat)
    requires Inv(sb, s) && i < |s.nodes| && pos < s.nodes[i].ext && k < |s.nodes|
    ensures |s.nodes[i].addrs| == NDIRECT + 1 && At(s.blocks, s.nodes[i], pos) < |s.blocks|
    ensures var t := WriteBlock(s, i, pos, x);
            && Shape(sb, t.blocks, s.nodes[k]) && AtSame(s.blocks, s.nodes[k], t.blocks, s.nodes[k], INDIRECT + 1)
            && forall q: nat :: q < s.nodes[k].ext && (k, q) != (i, pos) ==>
                 BlockSame(s.blocks, s.nodes[k], t.blocks, q)
  {
    var t := WriteBlock(s, i, pos, x);
    if s.nodes[k].ind { Apart(sb, s, i, pos, k, INDIRECT); }
    SameShape(sb, s.blocks, t.blocks, s.nodes[k]);
    forall q: nat | q < s.nodes[k].ext && (k, q) != (i, pos) ensures BlockSame(s.blocks, s.nodes[k], t.blocks, q) {
      Apart(sb, s, i, pos, k, q);
    }
  }

  /** It changes that block of that file, and nothing else anywhere. */
  lemma WriteBlockKeeps(sb: Super, s: Fs, i: nat, pos: nat, x: Block)
    requires Inv(sb, s) && i < |s.nodes| && pos < s.nodes[i].ext
    ensures |s.nodes[i].addrs| == NDIRECT + 1 && At(s.blocks, s.nodes[i], pos) < |s.blocks|
    ensures var t := WriteBlock(s, i, pos, x);
            && Inv(sb, t)
            && Data(sb, t.blocks, t.nodes[i]) == Data(sb, s.blocks, s.nodes[i])[pos := x]
            && forall k :: 0 <= k < |s.nodes| && k != i ==>
                 Data(sb, t.blocks, t.nodes[k]) == Data(sb, s.blocks, s.nodes[k])
  {
    WriteBlockAt(sb, s, i, pos, x, i);
    var t := WriteBlock(s, i, pos, x);
    forall k | 0 <= k < |s.nodes|
      ensures Shape(sb, t.blocks, t.nodes[k])
      ensures AtSame(s.blocks, s.nodes[k], t.blocks, t.nodes[k], INDIRECT + 1)
      ensures k != i ==> Data(sb, t.blocks, t.nodes[k]) == Data(sb, s.blocks, s.nodes[k])
    {
      WriteBlockAt(sb, s, i, pos, x, k);
      if k != i { SameData(sb, s.blocks, s.nodes[k], t.blocks, t.nodes[k]); }
    }
    WriteBlockOwned(sb, s, t);
    var d, d' := Data(sb, s.blocks, s.nodes[i]), Data(sb, t.blocks, t.nodes[i]);
    forall q: nat | q < s.nodes[i].ext ensures d'[q] == d[pos := x][q] {
      assert q != pos ==> BlockSame(s.blocks, s.nodes[i], t.blocks, q);
    }
  }

  lemma WriteBlockOwned(sb: Super, s: Fs, t: Fs)
    requires Inv(sb, s) && t == s.(blocks := t.blocks) && |t.blocks| == |s.blocks|
    requires forall k :: 0 <= k < |s.nodes| ==>
               Shape(sb, t.blocks, t.nodes[k]) && AtSame(s.blocks, s.nodes[k], t.blocks, t.nodes[k], INDIRECT + 1)
    ensures Inv(sb, t)
  {
    forall k, pos: nat | 0 <= k < |t.nodes| && pos <= INDIRECT && Used(t.nodes[k], pos)
      ensures Owns(t.blocks, t.nodes, t.owner, k, pos)
    {
      assert Owns(s.blocks, s.nodes, s.owner, k, pos);
    }
    forall x | x in t.owner ensures OwnedBy(t.blocks, t.nodes, x, t.owner[x].0, t.owner[x].1) {
      assert OwnedBy(s.blocks, s.nodes, x, s.owner[x].0, s.owner[x].1);
    }
  }

  // ---------- giving up all blocks ----------

  function Empty(): Node {
    Node([0, 0, 0, 0, 0, 0, 0, 0, 0, 0, 0, 0, 0], 0, false)
  }

  /** itrunc: exactly inode i's blocks become free. */
  ghost function Truncate(s: Fs, i: nat): Fs
    requires i < |s.nodes|
  {
    Fs(seq(|s.bits|, b requires 0 <= b < |s.bits| => s.bits[b] && (b in s.owner ==> s.owner[b].0 != i)),
       s.blocks, s.nodes[i := Empty()], map b | b in s.owner && s.owner[b].0 != i :: s.owner[b])
  }

  lemma TruncateKeeps(sb: Super, s: Fs, i: nat)
    requires Inv(sb, s) && i < |s.nodes|
    ensures var t := Truncate(s, i);
            && Inv(sb, t) && Data(sb, t.blocks, t.nodes[i]) == []
            && forall k :: 0 <= k < |s.nodes| && k != i ==>
                 Data(sb, t.blocks, t.nodes[k]) == Data(sb, s.blocks, s.nodes[k])
  {
    var t := Truncate(s, i);
    forall k, pos: nat | 0 <= k < |t.nodes| && pos <= INDIRECT && Used(t.nodes[k], pos)
      ensures Owns(t.blocks, t.nodes, t.owner, k, pos)
    {
      assert Owns(s.blocks, s.nodes, s.owner, k, pos);
    }
    forall x | x in t.owner ensures OwnedBy(t.blocks, t.nodes, x, t.owner[x].0, t.owner[x].1) {
      assert OwnedBy(s.blocks, s.nodes, x, s.owner[x].0, s.owner[x].1);
    }
    TruncateBits(sb, s, i);
  }

  lemma TruncateBits(sb: Super, s: Fs, i: nat)
    requires Inv(sb, s) && i < |s.nodes|
    ensures BitInv(sb, Truncate(s, i).bits, Truncate(s, i).owner)
  {
    forall b: nat | b in s.owner ensures b >= sb.meta {
      assert OwnedBy(s.blocks, s.nodes, b, s.owner[b].0, s.owner[b].1);
    }
  }

  // ---------- growing a file by one block ----------

  /** Inode i's file has one more block, zeroed; nothing else about any file is new. */
  ghost predicate GrewOne(sb: Super, s: Fs, t: Fs, i: nat) {
    && Inv(sb, s) && Inv(sb, t) && i < |s.nodes| == |t.nodes|
    && t.nodes[i].ext == s.nodes[i].ext + 1
    && (t.nodes[i].ind <==> s.nodes[i].ind || s.nodes[i].ext >= NDIRECT)
    && Data(sb, t.blocks, t.nodes[i]) == Data(sb, s.blocks, s.nodes[i]) + [ZeroBlock()]
    && OthersSame(sb, s, t, i)
  }

  ghost predicate OthersSame(sb: Super, s: Fs, t: Fs, i: nat)
    requires Inv(sb, s) && Inv(sb, t)
  {
    && |t.nodes| == |s.nodes|
    && forall k :: 0 <= k < |s.nodes| && k != i ==>
         t.nodes[k] == s.nodes[k] && Data(sb, t.blocks, t.nodes[k]) == Data(sb, s.blocks, s.nodes[k])
  }

  lemma DirectGrew(sb: Super, s: Fs, i: nat, b: nat)
    requires Inv(sb, s) && IsFree(sb, s, b) && i < |s.nodes| && s.nodes[i].ext < NDIRECT
    ensures |s.nodes[i].addrs| == NDIRECT + 1 && b < |s.bits| && b < |s.blocks|
    ensures Inv(sb, NewDirect(s, i, b)) && GrewOne(sb, s, NewDirect(s, i, b), i)
    ensures At(NewDirect(s, i, b).blocks, NewDirect(s, i, b).nodes[i], s.nodes[i].ext) == b
  {
    NewDirectGains(sb, s, i, b);
    var t := NewDirect(s, i, b);
    hide Inv, Shape, At, DataSame, NewDirect, Data;
    GainKeeps(sb, s, t, i, s.nodes[i].ext, b);
    GainData(sb, s, t, i, b);
    forall k | 0 <= k < |s.nodes| && k != i
      ensures t.nodes[k] == s.nodes[k] && Data(sb, t.blocks, t.nodes[k]) == Data(sb, s.blocks, s.nodes[k])
    {
      GainOthers(sb, s, t, i, s.nodes[i].ext, b, k);
    }
  }

  lemma EntryGrew(sb: Super, s: Fs, i: nat, b: nat)
    requires Inv(sb, s) && IsFree(sb, s, b) && i < |s.nodes| && NDIRECT <= s.nodes[i].ext < MAXFILE && s.nodes[i].ind
    ensures |s.nodes[i].addrs| == NDIRECT + 1 && b < |s.bits| && b < |s.blocks|
            && s.nodes[i].addrs[NDIRECT] < |s.blocks|
    ensures Inv(sb, NewEntry(s, i, b)) && GrewOne(sb, s, NewEntry(s, i, b), i)
    ensures At(NewEntry(s, i, b).blocks, NewEntry(s, i, b).nodes[i], s.nodes[i].ext) == b
  {
    NewEntryGains(sb, s, i, b);
    var t := NewEntry(s, i, b);
    hide Inv, Shape, At, DataSame, NewEntry, Data;
    GainKeeps(sb, s, t, i, s.nodes[i].ext, b);
    GainData(sb, s, t, i, b);
    forall k | 0 <= k < |s.nodes| && k != i
      ensures t.nodes[k] == s.nodes[k] && Data(sb, t.blocks, t.nodes[k]) == Data(sb, s.blocks, s.nodes[k])
    {
      GainOthers(sb, s, t, i, s.nodes[i].ext, b, k);
    }
  }

  lemma IndirectTaken(sb: Super, s: Fs, i: nat, b: nat)
    requires Inv(sb, s) && IsFree(sb, s, b) && i < |s.nodes| && !s.nodes[i].ind
    ensures |s.nodes[i].addrs| == NDIRECT + 1 && b < |s.bits| && b < |s.blocks|
    ensures var t := NewIndirect(s, i, b);
            && Inv(sb, t) && OthersSame(sb, s, t, i)
            && Data(sb, t.blocks, t.nodes[i]) == Data(sb, s.blocks, s.nodes[i])
  {
    NewIndirectGains(sb, s, i, b);
    var t := NewIndirect(s, i, b);
    assert t.nodes[i].ext == s.nodes[i].ext;
    hide Inv, Shape, At, DataSame, NewIndirect, Data;
    GainKeeps(sb, s, t, i, INDIRECT, b);
    forall k | 0 <= k < |s.nodes|
      ensures k != i ==> t.nodes[k] == s.nodes[k]
      ensures Data(sb, t.blocks, t.nodes[k]) == Data(sb, s.blocks, s.nodes[k])
    {
      GainOthers(sb, s, t, i, INDIRECT, b, k);
    }
  }

  lemma IndirectThenEntry(sb: Super, s: Fs, u: Fs, t: Fs, i: nat)
    requires Inv(sb, s) && Inv(sb, u) && i < |s.nodes| && OthersSame(sb, s, u, i) && GrewOne(sb, u, t, i)
    requires u.nodes[i].ext == s.nodes[i].ext >= NDIRECT
    requires Data(sb, u.blocks, u.nodes[i]) == Data(sb, s.blocks, s.nodes[i])
    ensures GrewOne(sb, s, t, i)
  {
    hide Inv, Data;
  }

  /** What the inode's own words say about a position. */
  lemma NodeFacts(sb: Super, s: Fs, i: nat, pos: nat)
    requires Inv(sb, s) && i < |s.nodes| && pos <= INDIRECT
    ensures |s.nodes[i].addrs| == NDIRECT + 1 && s.nodes[i].ext <= MAXFILE && |s.blocks| == |s.bits| == sb.size > 0
    ensures At(s.blocks, s.nodes[i], pos) != 0 <==> Used(s.nodes[i], pos)
    ensures Used(s.nodes[i], pos) ==> At(s.blocks, s.nodes[i], pos) < |s.blocks|
    ensures At(s.blocks, s.nodes[i], INDIRECT) == s.nodes[i].addrs[NDIRECT]
    ensures s.nodes[i].ext > NDIRECT ==> s.nodes[i].ind
    ensures s.nodes[i].ind <==> s.nodes[i].addrs[NDIRECT] != 0
    ensures s.nodes[i].ind ==> s.nodes[i].addrs[NDIRECT] < |s.blocks|
    ensures s.bits[0]
  {
    assert Used(s.nodes[i], INDIRECT) == s.nodes[i].ind;
  }

  lemma AtDirect(blocks: seq<Block>, n: Node, pos: nat)
    requires |n.addrs| == NDIRECT + 1 && pos < NDIRECT
    ensures At(blocks, n, pos) == n.addrs[pos]
  {
  }

  lemma AtIndirect(blocks: seq<Block>, n: Node, pos: nat)
    requires |n.addrs| == NDIRECT + 1 && NDIRECT <= pos < MAXFILE && 0 < n.addrs[NDIRECT] < |blocks|
    ensures At(blocks, n, pos) == Word(blocks[n.addrs[NDIRECT]], pos - NDIRECT)
  {
  }

  // ---------- bytes written ----------

  /** src over f from byte off, which may lengthen f. */
  function Splice(f: seq<Byte>, off: nat, src: seq<Byte>): seq<Byte>
    requires off <= |f|
  {
    f[..off] + src + if off + |src| <= |f| then f[off + |src|..] else []
  }

  lemma FlatPatch(d: seq<Block>, bn: nat, o: nat, src: seq<Byte>)
    requires bn < |d| && o + |src| <= BSIZE
    ensures var g, at := Flat(d[bn := Patch(d[bn], o, src)]), bn * BSIZE + o;
            && |g| == |Flat(d)| == BSIZE * |d|
            && (forall j :: 0 <= j < |src| ==> g[at + j] == src[j])
            && (forall k :: 0 <= k < |g| && !(at <= k < at + |src|) ==> g[k] == Flat(d)[k])
  {
    var d' := d[bn := Patch(d[bn], o, src)];
    var g, at := Flat(d'), bn * BSIZE + o;
    FlatSize(d);
    FlatSize(d');
    forall j | 0 <= j < |src| ensures g[at + j] == src[j] {
      FlatAt(d', at + j);
    }
    forall k | 0 <= k < |g| && !(at <= k < at + |src|) ensures g[k] == Flat(d)[k] {
      FlatAt(d', k);
      FlatAt(d, k);
    }
  }

  /** f0 with src[..tot] written at off; f may have been lengthened already. */
  ghost predicate Written(f0: seq<Byte>, f: seq<Byte>, off: nat, src: seq<Byte>, tot: nat) {
    && off <= |f0| <= |f| && tot <= |src| && off + tot <= |f|
    && (forall k :: 0 <= k < off ==> f[k] == f0[k])
    && (forall j :: 0 <= j < tot ==> f[off + j] == src[j])
    && (forall k :: off + tot <= k < |f0| ==> f[k] == f0[k])
  }

  /** d, perhaps lengthened by a zeroed block so that block bn is there. */
  function Reached(d: seq<Block>, bn: nat): seq<Block> {
    if bn < |d| then d else d + [ZeroBlock()]
  }

  lemma WrittenMore(f0: seq<Byte>, d: seq<Block>, off: nat, src: seq<Byte>, tot: nat, m: nat)
    requires Written(f0, Flat(d), off, src, tot) && tot + m <= |src|
    requires (off + tot) / BSIZE <= |d| && (off + tot) % BSIZE + m <= BSIZE
    ensures var bn, o := (off + tot) / BSIZE, (off + tot) % BSIZE;
            && bn < |Reached(d, bn)|
            && Written(f0, Flat(Reached(d, bn)[bn := Patch(Reached(d, bn)[bn], o, src[tot..tot + m])]), off, src,
                 tot + m)
  {
    var bn, o := (off + tot) / BSIZE, (off + tot) % BSIZE;
    var e := Reached(d, bn);
    FlatSize(d);
    FlatSize(e);
    assert bn >= |d| ==> e[..|e| - 1] == d;
    FlatPatch(e, bn, o, src[tot..tot + m]);
    assert bn * BSIZE + o == off + tot;
    var g := Flat(e[bn := Patch(e[bn], o, src[tot..tot + m])]);
    forall j | 0 <= j < tot + m ensures g[off + j] == src[j] {
      if j >= tot { assert src[tot..tot + m][j - tot] == src[j]; }
    }
  }

  lemma WrittenAll(f0: seq<Byte>, f: seq<Byte>, off: nat, src: seq<Byte>, size: nat, size': nat)
    requires Written(f0, f, off, src, |src|) && off <= size <= |f0| && size' <= |f|
    requires size' == if off + |src| > size then off + |src| else size
    ensures f[..size'] == Splice(f0[..size], off, src)
  {
  }

  /** Inode i's file has piece in its block bn, which may be new; other files are the same. */
  ghost predicate WroteOne(sb: Super, s: Fs, t: Fs, i: nat, bn: nat, o: nat, piece: seq<Byte>)
    requires Inv(sb, s) && Inv(sb, t) && i < |s.nodes| && bn <= s.nodes[i].ext && o + |piece| <= BSIZE
  {
    && OthersSame(sb, s, t, i)
    && (var d := Reached(Data(sb, s.blocks, s.nodes[i]), bn);
        Data(sb, t.blocks, t.nodes[i]) == d[bn := Patch(d[bn], o, piece)])
    && t.nodes[i].ext == (if bn < s.nodes[i].ext then s.nodes[i].ext else bn + 1)
    && (bn < s.nodes[i].ext ==> t.nodes[i] == s.nodes[i])
    && (t.nodes[i].ind <==> s.nodes[i].ind || t.nodes[i].ext > NDIRECT)
  }

  /** u is s, or s with block bn added; then the block is written. */
  lemma WroteAfter(sb: Super, s: Fs, u: Fs, i: nat, bn: nat, o: nat, piece: seq<Byte>)
    requires Inv(sb, s) && Inv(sb, u) && i < |s.nodes| && bn <= s.nodes[i].ext && o + |piece| <= BSIZE
    requires if bn < s.nodes[i].ext then u == s else GrewOne(sb, s, u, i)
    ensures i < |u.nodes| && bn < u.nodes[i].ext && |u.nodes[i].addrs| == NDIRECT + 1
    ensures At(u.blocks, u.nodes[i], bn) < |u.blocks|
    ensures var t := WriteBlock(u, i, bn, Patch(u.blocks[At(u.blocks, u.nodes[i], bn)], o, piece));
            Inv(sb, t) && WroteOne(sb, s, t, i, bn, o, piece)
  {
    hide Inv, Patch, WriteBlock;
    NodeFacts(sb, s, i, 0);
    NodeFacts(sb, u, i, bn);
    ShapeOf(sb, s, i);
    ShapeOf(sb, u, i);
    hide Shape, At, Upto;
    var d := Data(sb, u.blocks, u.nodes[i]);
    assert d == Reached(Data(sb, s.blocks, s.nodes[i]), bn);
    var x := Patch(u.blocks[At(u.blocks, u.nodes[i], bn)], o, piece);
    assert x == Patch(d[bn], o, piece);
    WriteBlockKeeps(sb, u, i, bn, x);
    var t := WriteBlock(u, i, bn, x);
    assert t.nodes == u.nodes by { WriteBlockNodes(u, i, bn, x); }
    assert OthersSame(sb, s, t, i);
  }

  lemma WriteBlockNodes(s: Fs, i: nat, pos: nat, x: Block)
    requires i < |s.nodes| && |s.nodes[i].addrs| == NDIRECT + 1 && At(s.blocks, s.nodes[i], pos) < |s.blocks|
    ensures WriteBlock(s, i, pos, x).nodes == s.nodes
  {
  }

  lemma ShapeOf(sb: Super, s: Fs, i: nat)
    requires Inv(sb, s) && i < |s.nodes|
    ensures Shape(sb, s.blocks, s.nodes[i]) && |s.blocks| == sb.size
  {
  }

  lemma FlatSlice(d: seq<Block>, bn: nat, o: nat, m: nat)
    requires bn < |d| && o + m <= BSIZE
    ensures |Flat(d)| == BSIZE * |d| && Flat(d)[bn * BSIZE + o..bn * BSIZE + o + m] == d[bn][o..o + m]
  {
    FlatSize(d);
    var part := Flat(d)[bn * BSIZE + o..bn * BSIZE + o + m];
    forall j | 0 <= j < m ensures part[j] == d[bn][o..o + m][j] {
      FlatAt(d, bn * BSIZE + o + j);
    }
  }

  // ---------- itrunc, position by position ----------

  /** The bits once inode i's positions below pos have been given up. */
  ghost predicate FreedUpto(s: Fs, bits: seq<bool>, i: nat, pos: nat) {
    && |bits| == |s.bits|
    && forall b: nat :: b < |bits| ==>
         (bits[b] <==> s.bits[b] && !(b in s.owner && s.owner[b].0 == i && s.owner[b].1 < pos))
  }

  /** Position pos of inode i may be given up: its bit is still set, and no other position has it. */
  lemma FreedOne(sb: Super, s: Fs, bits: seq<bool>, i: nat, pos: nat)
    requires Inv(sb, s) && i < |s.nodes| && pos <= INDIRECT && FreedUpto(s, bits, i, pos)
    ensures |s.nodes[i].addrs| == NDIRECT + 1
    ensures var b := At(s.blocks, s.nodes[i], pos);
            && (b != 0 ==> b < |bits| && bits[b] && FreedUpto(s, bits[b := false], i, pos + 1))
            && (b == 0 ==> FreedUpto(s, bits, i, pos + 1))
  {
    var b := At(s.blocks, s.nodes[i], pos);
    assert b != 0 <==> Used(s.nodes[i], pos);
    if b != 0 {
      assert Owns(s.blocks, s.nodes, s.owner, i, pos);
    }
    forall c: nat | c in s.owner && s.owner[c] == (i, pos) ensures c == b && Used(s.nodes[i], pos) {
      assert OwnedBy(s.blocks, s.nodes, c, s.owner[c].0, s.owner[c].1);
    }
  }

  lemma FreedAll(sb: Super, s: Fs, bits: seq<bool>, i: nat)
    requires Inv(sb, s) && i < |s.nodes| && FreedUpto(s, bits, i, INDIRECT + 1)
    ensures bits == Truncate(s, i).bits
  {
    forall b: nat | b in s.owner ensures s.owner[b].1 <= INDIRECT {
      assert OwnedBy(s.blocks, s.nodes, b, s.owner[b].0, s.owner[b].1);
    }
  }

  /** No indirect block, no positions in it. */
  lemma NoIndirect(sb: Super, s: Fs, bits: seq<bool>, i: nat)
    requires Inv(sb, s) && i < |s.nodes| && !s.nodes[i].ind && FreedUpto(s, bits, i, NDIRECT)
    ensures FreedUpto(s, bits, i, INDIRECT + 1)
  {
    forall b: nat | b in s.owner && s.owner[b].0 == i ensures s.owner[b].1 < NDIRECT {
      assert OwnedBy(s.blocks, s.nodes, b, s.owner[b].0, s.owner[b].1);
    }
  }

  lemma FreedNone(s: Fs, i: nat)
    ensures FreedUpto(s, s.bits, i, 0)
  {
  }

  lemma Truncated(sb: Super, s: Fs, i: nat)
    requires Inv(sb, s) && i < |s.nodes|
    ensures var t := Truncate(s, i);
            t.nodes == s.nodes[i := Empty()] && t.blocks == s.blocks && Inv(sb, t) && OthersSame(sb, s, t, i)
  {
    TruncateKeeps(sb, s, i);
  }

  // ---------- the bitmap, read back ----------

  /** A bit is set exactly when its block is metadata or some inode's; Apart says that
      a block has one position at most. */
  lemma BitsExact(sb: Super, s: Fs, b: nat)
    requires Inv(sb, s) && b < sb.size
    ensures |s.bits| == sb.size
    ensures s.bits[b] <==> b < sb.meta || exists i, pos: nat :: OwnedBy(s.blocks, s.nodes, b, i, pos)
  {
    if b in s.owner {
      assert OwnedBy(s.blocks, s.nodes, b, s.owner[b].0, s.owner[b].1);
    }
    forall i, pos: nat | OwnedBy(s.blocks, s.nodes, b, i, pos) ensures b in s.owner {
      assert Owns(s.blocks, s.nodes, s.owner, i, pos);
    }
  }
}
