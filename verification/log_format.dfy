/**
 The redo log's on-disk format (log.c lines 23-48, fs.h, param.h), and the one
 list of block writes that a commit or a recovery makes, in order.

 A block is its BSIZE/4 unsigned words. The log's header block holds the count
 in word 0 and the home block numbers in the words after it; the logged copies
 follow the header on disk.
*/
module LogFormat {
  import opened Common

  const BWORDS: nat := 128

  type Block = b: seq<nat> | |b| == BWORDS witness seq(BWORDS, _ => 0)
  type Disk = seq<Block>

  /** The log region is [start, start + size); its first block is the header. */
  datatype Geometry = Geometry(start: nat, size: nat)

  predicate InLog(g: Geometry, b: nat) {
    g.start <= b < g.start + g.size
  }

  /** The geometry that mkfs writes: the log has LOGSIZE blocks, header included. */
  predicate GeometryOk(g: Geometry, d: Disk) {
    g.size == LOGSIZE && g.start + g.size <= |d|
  }

  /** A block outside the log on a disk of the given size. */
  predicate IsHome(g: Geometry, size: nat, b: nat) {
    b < size && !InLog(g, b)
  }

  // ---------- header block ----------

  predicate HeaderOk(b: Block) {
    b[0] <= LOGSIZE
  }

  function ReadHeader(b: Block): seq<nat>
    requires HeaderOk(b)
  {
    b[1..1 + b[0]]
  }

  /** Writing a header leaves the words after the last entry as they were. */
  function WriteHeader(b: Block, lh: seq<nat>): Block
    requires |lh| <= LOGSIZE
  {
    [|lh|] + lh + b[1 + |lh|..]
  }

  lemma HeaderRoundTrip(b: Block, lh: seq<nat>)
    requires |lh| <= LOGSIZE
    ensures HeaderOk(WriteHeader(b, lh)) && ReadHeader(WriteHeader(b, lh)) == lh
    ensures forall i :: 1 + |lh| <= i < BWORDS ==> WriteHeader(b, lh)[i] == b[i]
  {
    assert WriteHeader(b, lh)[1..1 + |lh|] == lh;
  }

  // ---------- what a reader of the cache sees ----------

  /** A pinned dirty buffer hides the disk's copy. */
  function View(d: Disk, dirty: map<nat, Block>, b: nat): Block
    requires b < |d|
  {
    if b in dirty then dirty[b] else d[b]
  }

  // ---------- the block writes of commit() and recover_from_log() ----------

  datatype Write = Write(bno: nat, data: Block)

  predicate EntriesOk(g: Geometry, d: Disk, lh: seq<nat>) {
    && |lh| <= LOGSIZE
    && g.start + |lh| < |d|
    && forall i :: 0 <= i < |lh| ==> lh[i] < |d|
  }

  function CommitLength(n: nat): nat {
    if n == 0 then 0 else 2 * n + 2
  }

  /** The pc-th block write of a commit, as a function of the disk at that moment. */
  function CommitWrite(g: Geometry, d: Disk, lh: seq<nat>, dirty: map<nat, Block>, pc: nat): Write
    requires EntriesOk(g, d, lh)
    requires pc < CommitLength(|lh|)
  {
    var n := |lh|;
    if pc < n then Write(g.start + 1 + pc, View(d, dirty, lh[pc]))
    else if pc == n then Write(g.start, WriteHeader(d[g.start], lh))
    else if pc < 2 * n + 1 then Write(lh[pc - n - 1], d[g.start + pc - n])
    else Write(g.start, WriteHeader(d[g.start], []))
  }

  /** The pc-th block write of a recovery that found lh in the header. */
  function RecoverWrite(g: Geometry, d: Disk, lh: seq<nat>, pc: nat): Write
    requires EntriesOk(g, d, lh)
    requires pc <= |lh|
  {
    if pc < |lh| then Write(lh[pc], d[g.start + 1 + pc])
    else Write(g.start, WriteHeader(d[g.start], []))
  }

  function Apply(d: Disk, w: Write): Disk
    requires w.bno < |d|
  {
    d[w.bno := w.data]
  }
}
