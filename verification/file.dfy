/**
 Open files (file.c): filewrite cuts a write into chunks, each its own operation and
 small enough for the log.
*/
module File {
  import opened Common
  import opened FsLog
  import opened FsModel
  import opened FileSystem

  lemma SpliceTwice(f: seq<Byte>, off: nat, a: seq<Byte>, b: seq<Byte>)
    requires off <= |f|
    ensures off + |a| <= |Splice(f, off, a)|
    ensures Splice(Splice(f, off, a), off + |a|, b) == Splice(f, off, a + b)
  {
  }

  /** n bytes at off can be written to f. */
  predicate Fits(f: seq<Byte>, off: nat, n: nat) {
    off <= |f| && off + n <= MAXFILE * BSIZE
  }

  predicate WholeChunks(n: nat, k: nat) {
    n == k * CHUNK
  }

  /** files with the first n bytes of src written to file i at off. */
  function WithWritten(files: seq<seq<Byte>>, i: nat, off: nat, src: seq<Byte>, n: nat): seq<seq<Byte>>
    requires i < |files| && n <= |src| && (n > 0 ==> Fits(files[i], off, n))
  {
    if n == 0 then files else files[i := Splice(files[i], off, src[..n])]
  }

  /** The first n bytes of src, in k whole chunks unless that is all of it, are in file i
      at off, no other file has changed, and the offset has moved on by n. */
  ghost predicate Progress(files: seq<seq<Byte>>, now: seq<seq<Byte>>, i: nat, off: nat, off': nat, src: seq<Byte>,
                           n: nat, k: nat)
  {
    && i < |files| && n <= |src| && off' == off + n && (n < |src| ==> WholeChunks(n, k))
    && (n > 0 ==> Fits(files[i], off, n))
    && now == WithWritten(files, i, off, src, n)
  }

  lemma NoProgress(files: seq<seq<Byte>>, i: nat, off: nat, src: seq<Byte>)
    requires i < |files|
    ensures Progress(files, files, i, off, off, src, 0, 0)
  {
  }

  /** The next n bytes, a chunk or all that is left. */
  lemma MoreProgress(files: seq<seq<Byte>>, now: seq<seq<Byte>>, i: nat, off: nat, off': nat, src: seq<Byte>,
                     done: nat, k: nat, n: nat)
    requires Progress(files, now, i, off, off', src, done, k) && done < |src| && n == Min(CHUNK, |src| - done)
    requires Fits(now[i], off', n)
    ensures Progress(files, now[i := Splice(now[i], off', src[done..done + n])], i, off, off' + n, src, done + n, k + 1)
  {
    assert src[..done] + src[done..done + n] == src[..done + n];
    if done > 0 { SpliceTwice(files[i], off, src[..done], src[done..done + n]); }
  }

  /** An operation within its reservation, which changed only what it logged and has left the
      file system right. */
  ghost predicate GoodOp(sb: Super, a: Version, b: Version, logged: set<nat>) {
    |logged| <= MAXOPBLOCKS && Sound(sb, b) && OpDid(sb, a.s, a.d, b.s, b.d, logged)
  }

  /** The last of q, or first if there is none. */
  function Newest(first: Version, q: seq<Version>): Version {
    if q == [] then first else q[|q| - 1]
  }

  /** Such operations have led from first through the versions q, logging these blocks. */
  ghost predicate GoodOps(sb: Super, first: Version, q: seq<Version>, logs: seq<set<nat>>) {
    && |q| == |logs|
    && forall k: nat :: k < |logs| ==> GoodOp(sb, Newest(first, q[..k]), q[k], logs[k])
  }

  /** k such operations have ended since ops and past were was and pwas, the last one now. */
  ghost predicate MoreOps(sb: Super, first: Version, was: seq<set<nat>>, ops: seq<set<nat>>, pwas: seq<Version>,
                          past: seq<Version>, now: Version, k: nat) {
    && was <= ops && pwas <= past && |ops| == |was| + k
    && GoodOps(sb, first, past[|pwas|..], ops[|was|..]) && Newest(first, past[|pwas|..]) == now
  }

  lemma OneMoreOp(sb: Super, first: Version, was: seq<set<nat>>, ops: seq<set<nat>>, pwas: seq<Version>,
                  past: seq<Version>, now: Version, k: nat, b: Version, logged: set<nat>)
    requires MoreOps(sb, first, was, ops, pwas, past, now, k) && GoodOp(sb, now, b, logged)
    ensures MoreOps(sb, first, was, ops + [logged], pwas, past + [b], b, k + 1)
  {
    hide GoodOp;
    var q, logs := past[|pwas|..], ops[|was|..];
    assert (past + [b])[|pwas|..] == q + [b] && (ops + [logged])[|was|..] == logs + [logged];
    forall j: nat | j < |logs| + 1
      ensures GoodOp(sb, Newest(first, (q + [b])[..j]), (q + [b])[j], (logs + [logged])[j])
    {
      assert (q + [b])[..j] == if j < |q| then q[..j] else q;
      if j < |q| { assert GoodOp(sb, Newest(first, q[..j]), q[j], logs[j]); }
    }
  }

  lemma NoOps(sb: Super, first: Version, was: seq<set<nat>>, pwas: seq<Version>)
    ensures MoreOps(sb, first, was, was, pwas, pwas, first, 0)
  {
  }

  lemma NoChange(sb: Super, a: Version)
    requires Sound(sb, a)
    ensures GoodOp(sb, a, a, {})
  {
  }

  /** A chunk that has been written is a good operation. */
  lemma ChunkGood(fs: FileSystem, was: Version, i: nat, off: nat, n: nat)
    requires fs.WroteAll(was.s, was.d, {}, i, off, n) && n <= CHUNK && fs.Valid() && fs.AllSynced()
    ensures WriteAct(fs.sb, was, fs.Now(), i, off, n, fs.logged) && GoodOp(fs.sb, was, fs.Now(), fs.logged)
  {
    WriteIsOp(fs, was, i, off, n);
    hide FileSystem.WroteAll, WroteFile, WriteLog, OpDid, LogCost;
    WriteBound(fs.sb, was.s, fs.S(), i, off, n, was.d[i].size);
    ChunkFits(off, n);
  }

  class OpenFile {
    const inum: nat
    var off: nat

    constructor (inum: nat)
      ensures this.inum == inum && off == 0
    {
      this.inum := inum;
      off := 0;
    }

    /** One chunk: an operation of its own, that logs no more than its reservation. When it
        has written, fs.ops ends with exactly the blocks that it logged, and every block of
        the disk that it changed is one of them. */
    method WriteChunk(fs: FileSystem, piece: seq<Byte>) returns (r: Outcome)
      requires fs.Valid() && fs.AllSynced() && inum < |fs.nodes|
      requires off < WRAP && |piece| <= CHUNK
      modifies this, fs
      ensures r == Ret(-1) <==> !Fits(old(fs.Files())[inum], old(off), |piece|)
      ensures r == Stopped <==>
                && Fits(old(fs.Files())[inum], old(off), |piece|)
                && FreeCount(old(fs.bits)) + BlocksFor(old(fs.dinodes[inum].size))
                     < BlocksFor(Max(old(fs.dinodes[inum].size), old(off) + |piece|))
      ensures r == Stopped ==> FreeCount(fs.bits) == 0 && fs.ops == old(fs.ops) && fs.past == old(fs.past)
      ensures r != Stopped && r != Ret(-1) ==> r == Ret(|piece|)
      ensures r != Stopped ==> fs.Valid() && fs.AllSynced() && |fs.nodes| == |old(fs.nodes)|
      ensures r != Stopped ==> fs.ops == old(fs.ops) + [fs.logged] && fs.past == old(fs.past) + [fs.Now()]
      ensures r != Stopped ==> GoodOp(fs.sb, old(fs.Now()), fs.Now(), fs.logged)
      ensures r == Ret(-1) ==>
              fs.Now() == old(fs.Now()) && fs.Files() == old(fs.Files()) && off == old(off) && fs.logged == {}
      ensures r != Stopped && r != Ret(-1) ==>
                && off == old(off) + |piece|
                && fs.Files() == old(fs.Files())[inum := Splice(old(fs.Files())[inum], old(off), piece)]
                && WriteAct(fs.sb, old(fs.Now()), fs.Now(), inum, old(off), |piece|, fs.logged)
    {
      hide Inv, FilesOf, Splice, FreeCount, BlocksFor, GoodOp, WriteAct, FileSystem.WroteAll;
      NoChange(fs.sb, fs.Now());
      fs.FileSize(inum);
      ghost var was := fs.Now();
      fs.BeginOp();
      var ip := new Inode(inum, fs.dinodes[inum]);
      r := fs.Writei(ip, piece, off);
      if r == Stopped { return; }
      if r.Ret? && r.r > 0 { off := off + r.r; }
      if r.Ret? && r.r >= 0 { ChunkGood(fs, was, inum, old(off), |piece|); }
      fs.EndOp();
    }

    /** Writes src at the offset, chunk by chunk, each an operation that is kept in fs.ops
        and fs.past: it does not exceed its reservation, and changes only what it logs. A
        write that fails has written whole chunks, up to the first that does not fit. */
    method Write(fs: FileSystem, src: seq<Byte>) returns (r: Outcome, ghost done: nat, ghost chunks: nat)
      requires fs.Valid() && fs.AllSynced() && inum < |fs.nodes|
      requires off < WRAP && off + |src| < WRAP
      modifies this, fs
      ensures r != Stopped ==>
                MoreOps(fs.sb, old(fs.Now()), old(fs.ops), fs.ops, old(fs.past), fs.past, fs.Now(),
                        chunks + if done < |src| then 1 else 0)
      ensures r == Stopped ==>
                exists last ::
                  MoreOps(fs.sb, old(fs.Now()), old(fs.ops), fs.ops, old(fs.past), fs.past, last, chunks)
      ensures r != Stopped ==> fs.Valid() && fs.AllSynced() && |fs.nodes| == |old(fs.nodes)|
      ensures r != Stopped ==> Progress(old(fs.Files()), fs.Files(), inum, old(off), off, src, done, chunks)
      ensures r != Stopped ==> r == if done == |src| then Ret(|src|) else Ret(-1)
      ensures r != Stopped && done < |src| ==> !Fits(fs.Files()[inum], off, Min(CHUNK, |src| - done))
      ensures r == Stopped ==> FreeCount(fs.bits) == 0
    {
      hide Inv, FilesOf, Splice, Fits, Progress, FreeCount, BlocksFor, MoreOps, GoodOp, WriteAct, Synced;
      ghost var files, off0, ops0, past0, first := fs.Files(), off, fs.ops, fs.past, fs.Now();
      done, chunks := 0, 0;
      NoProgress(files, inum, off0, src);
      NoOps(fs.sb, first, ops0, past0);
      var i := 0;
      while i < |src|
        invariant i <= |src| && done == i && off + |src| - i < WRAP
        invariant fs.Valid() && fs.AllSynced() && |fs.nodes| == |old(fs.nodes)|
        invariant MoreOps(fs.sb, first, ops0, fs.ops, past0, fs.past, fs.Now(), chunks)
        invariant Progress(files, fs.Files(), inum, off0, off, src, i, chunks)
      {
        var n1 := |src| - i;
        if n1 > CHUNK { n1 := CHUNK; }
        ghost var before, o, ops, past, now := fs.Files(), off, fs.ops, fs.past, fs.Now();
        r := WriteChunk(fs, src[i..i + n1]);
        if r == Stopped { return; }
        OneMoreOp(fs.sb, first, ops0, ops, past0, past, now, chunks, fs.Now(), fs.logged);
        if r == Ret(-1) { return; }
        MoreProgress(files, before, inum, off0, o, src, i, chunks, n1);
        chunks := chunks + 1;
        i, done := i + n1, i + n1;
      }
      r := Ret(|src|);
    }
  }
}
