/**
 The log layer of log.c over a disk and the pinned part of the buffer cache. The
 methods follow the source's loops; each is tied to the block writes listed in
 LogFormat, one at a time and in order, through the disk's version history.
*/
module Log {
  import opened Common
  import opened LogFormat
  import LogCrash

  /** The disk, with every version it has had, and the dirty buffers pinned in
      the cache. One Bwrite is one atomic block write. */
  class Cache {
    var disk: Disk
    var dirty: map<nat, Block>
    ghost var versions: seq<Disk>

    constructor (d: Disk)
      ensures disk == d && dirty == map[] && versions == []
    {
      disk, dirty, versions := d, map[], [];
    }

    method Bread(b: nat) returns (data: Block)
      requires b < |disk|
      ensures data == View(disk, dirty, b)
    {
      data := if b in dirty then dirty[b] else disk[b];
    }

    method Bwrite(b: nat, data: Block)
      requires b < |disk|
      modifies this
      ensures disk == old(disk)[b := data] && dirty == old(dirty) - {b}
      ensures versions == old(versions) + [disk]
    {
      disk := disk[b := data];
      dirty := dirty - {b};
      versions := versions + [disk];
    }
  }

  // ---------- the versions that a commit or a recovery goes through ----------

  /** The disk after the first k block writes of a commit. */
  ghost function CommitDisk(g: Geometry, d: Disk, lh: seq<nat>, dirty: map<nat, Block>, k: nat): (r: Disk)
    requires EntriesOk(g, d, lh) && k <= CommitLength(|lh|)
    ensures |r| == |d|
  {
    if k == 0 then d
    else
      var p := CommitDisk(g, d, lh, dirty, k - 1);
      Apply(p, CommitWrite(g, p, lh, dirty, k - 1))
  }

  /** All of those versions but the first. */
  ghost function CommitDisks(g: Geometry, d: Disk, lh: seq<nat>, dirty: map<nat, Block>, k: nat): (r: seq<Disk>)
    requires EntriesOk(g, d, lh) && k <= CommitLength(|lh|)
    ensures |r| == k
  {
    if k == 0 then []
    else CommitDisks(g, d, lh, dirty, k - 1) + [CommitDisk(g, d, lh, dirty, k)]
  }

  /** The disk after the first k block writes of a recovery. */
  ghost function RecoverDisk(g: Geometry, d: Disk, lh: seq<nat>, k: nat): (r: Disk)
    requires EntriesOk(g, d, lh) && k <= |lh| + 1
    ensures |r| == |d|
  {
    if k == 0 then d
    else
      var p := RecoverDisk(g, d, lh, k - 1);
      Apply(p, RecoverWrite(g, p, lh, k - 1))
  }

  ghost function RecoverDisks(g: Geometry, d: Disk, lh: seq<nat>, k: nat): (r: seq<Disk>)
    requires EntriesOk(g, d, lh) && k <= |lh| + 1
    ensures |r| == k
  {
    if k == 0 then []
    else RecoverDisks(g, d, lh, k - 1) + [RecoverDisk(g, d, lh, k)]
  }

  /** Once the header is written, a commit goes on as a recovery would. */
  lemma {:induction false} CommitAsRecovery(g: Geometry, d: Disk, lh: seq<nat>, dirty: map<nat, Block>, k: nat)
    requires EntriesOk(g, d, lh) && lh != [] && k <= |lh| + 1
    ensures var h := CommitDisk(g, d, lh, dirty, |lh| + 1);
            && CommitDisk(g, d, lh, dirty, |lh| + 1 + k) == RecoverDisk(g, h, lh, k)
            && CommitDisks(g, d, lh, dirty, |lh| + 1 + k)
                 == CommitDisks(g, d, lh, dirty, |lh| + 1) + RecoverDisks(g, h, lh, k)
  {
    if k > 0 {
      CommitAsRecovery(g, d, lh, dirty, k - 1);
      assert |lh| + 1 + k - 1 == |lh| + 1 + (k - 1);
    }
  }

  lemma WholeCommit(g: Geometry, d: Disk, lh: seq<nat>, dirty: map<nat, Block>, v: seq<Disk>)
    requires EntriesOk(g, d, lh) && lh != []
    ensures var h := CommitDisk(g, d, lh, dirty, |lh| + 1);
            && CommitDisk(g, d, lh, dirty, CommitLength(|lh|)) == RecoverDisk(g, h, lh, |lh| + 1)
            && v + CommitDisks(g, d, lh, dirty, CommitLength(|lh|))
                 == v + CommitDisks(g, d, lh, dirty, |lh| + 1) + RecoverDisks(g, h, lh, |lh| + 1)
  {
    CommitAsRecovery(g, d, lh, dirty, |lh| + 1);
    assert |lh| + 1 + (|lh| + 1) == CommitLength(|lh|);
  }

  class Log {
    const g: Geometry
    const cache: Cache
    var outstanding: nat
    var committing: bool
    var n: nat
    const block: array<nat>

    /** The in-memory header. */
    ghost function Entries(): seq<nat>
      reads this, block
      requires n <= block.Length
    {
      block[..n]
    }

    ghost predicate Valid()
      reads this, block, cache
    {
      && block.Length == LOGSIZE && n <= LOGSIZE
      && GeometryOk(g, cache.disk)
    }

    /** What log_write's callers and its panic check establish: entries are
        blocks of the file system, and the slots stay inside the log. */
    ghost predicate EntriesAreHome()
      reads this, block, cache
      requires Valid()
    {
      n < g.size && forall i :: 0 <= i < n ==> IsHome(g, |cache.disk|, block[i])
    }

    /** Log blocks are written at once, never pinned. */
    ghost predicate NoDirtyLog()
      reads this, cache
    {
      forall b :: b in cache.dirty ==> !InLog(g, b)
    }

    constructor (g: Geometry, cache: Cache)
      requires GeometryOk(g, cache.disk)
      ensures Valid() && this.g == g && this.cache == cache && n == 0 && outstanding == 0 && !committing
      ensures fresh(block)
    {
      this.g, this.cache := g, cache;
      outstanding, committing, n := 0, false, 0;
      block := new nat[LOGSIZE](_ => 0);
    }

    /** Reads the header that the disk holds. */
    method ReadHead()
      requires Valid() && g.start !in cache.dirty && HeaderOk(cache.disk[g.start])
      modifies this`n, block
      ensures Valid() && Entries() == ReadHeader(cache.disk[g.start])
    {
      var hb := cache.Bread(g.start);
      n := hb[0];
      var i := 0;
      while i < n
        invariant 0 <= i <= n == hb[0]
        invariant block[..i] == hb[1..1 + i]
      {
        block[i] := hb[1 + i];
        i := i + 1;
      }
    }

    /** Writes the header; the words past the last entry keep their old values. */
    method WriteHead()
      requires Valid() && g.start !in cache.dirty
      modifies cache
      ensures Valid()
      ensures cache.disk == old(cache.disk)[g.start := WriteHeader(old(cache.disk)[g.start], Entries())]
      ensures cache.dirty == old(cache.dirty)
      ensures cache.versions == old(cache.versions) + [cache.disk]
    {
      var old_hb := cache.Bread(g.start);
      var hb := old_hb[0 := n];
      var i := 0;
      while i < n
        invariant 0 <= i <= n && |hb| == BWORDS
        invariant hb == [n] + block[..i] + old_hb[1 + i..]
      {
        hb := hb[1 + i := block[i]];
        i := i + 1;
      }
      cache.Bwrite(g.start, hb);
      assert cache.dirty == old(cache.dirty);
    }

    /** Copies the pinned blocks into the log's slots. */
    method WriteLog()
      requires Valid() && EntriesAreHome() && NoDirtyLog()
      modifies cache
      ensures Valid() && EntriesAreHome() && cache.dirty == old(cache.dirty)
      ensures cache.disk == CommitDisk(g, old(cache.disk), Entries(), old(cache.dirty), n)
      ensures cache.versions
                == old(cache.versions) + CommitDisks(g, old(cache.disk), Entries(), old(cache.dirty), n)
    {
      ghost var d, dirty, v, lh := cache.disk, cache.dirty, cache.versions, Entries();
      var tail := 0;
      while tail < n
        invariant 0 <= tail <= n && Valid() && EntriesAreHome() && Entries() == lh
        invariant cache.dirty == dirty
        invariant cache.disk == CommitDisk(g, d, lh, dirty, tail)
        invariant cache.versions == v + CommitDisks(g, d, lh, dirty, tail)
      {
        var from := cache.Bread(block[tail]);
        assert g.start + 1 + tail !in dirty;
        cache.Bwrite(g.start + tail + 1, from);
        assert cache.dirty == dirty;
        tail := tail + 1;
      }
    }

    /** Copies the log's slots to their homes and unpins them. */
    method InstallTrans()
      requires Valid() && EntriesAreHome() && NoDirtyLog()
      modifies cache
      ensures Valid() && EntriesAreHome() && NoDirtyLog()
      ensures cache.dirty == old(cache.dirty) - (set b | b in Entries())
      ensures cache.disk == RecoverDisk(g, old(cache.disk), Entries(), n)
      ensures cache.versions == old(cache.versions) + RecoverDisks(g, old(cache.disk), Entries(), n)
    {
      ghost var d, dirty, v, lh := cache.disk, cache.dirty, cache.versions, Entries();
      var tail := 0;
      while tail < n
        invariant 0 <= tail <= n && Valid() && EntriesAreHome() && NoDirtyLog() && Entries() == lh
        invariant cache.dirty == dirty - (set b | b in lh[..tail])
        invariant cache.disk == RecoverDisk(g, d, lh, tail)
        invariant cache.versions == v + RecoverDisks(g, d, lh, tail)
      {
        var lbuf := cache.Bread(g.start + tail + 1);
        cache.Bwrite(block[tail], lbuf);
        assert lh[..tail + 1] == lh[..tail] + [block[tail]];
        tail := tail + 1;
      }
    }

    /** initlog's recovery, on a cache with nothing pinned. */
    method RecoverFromLog()
      requires Valid() && cache.dirty == map[] && HeaderOk(cache.disk[g.start])
      requires var lh := ReadHeader(cache.disk[g.start]);
               |lh| < g.size && forall i :: 0 <= i < |lh| ==> IsHome(g, |cache.disk|, lh[i])
      modifies this`n, block, cache
      ensures Valid() && n == 0 && cache.dirty == map[]
      ensures var lh := ReadHeader(old(cache.disk)[g.start]);
              && cache.disk == RecoverDisk(g, old(cache.disk), lh, |lh| + 1)
              && cache.versions == old(cache.versions) + RecoverDisks(g, old(cache.disk), lh, |lh| + 1)
    {
      ghost var d, lh := cache.disk, ReadHeader(cache.disk[g.start]);
      ReadHead();
      assert forall i :: 0 <= i < n ==> block[i] == Entries()[i];
      InstallTrans();
      n := 0;
      WriteHead();
      assert Entries() == [];
      assert cache.disk == RecoverDisk(g, d, lh, |lh| + 1);
    }

    /** Writes nothing for an empty log. */
    method Commit()
      requires Valid() && EntriesAreHome() && NoDirtyLog()
      requires forall b :: b in cache.dirty ==> b in Entries()
      modifies this`n, cache
      ensures Valid() && n == 0 && cache.dirty == map[]
      ensures var lh := old(Entries());
              && EntriesOk(g, old(cache.disk), lh)
              && cache.disk == CommitDisk(g, old(cache.disk), lh, old(cache.dirty), CommitLength(|lh|))
              && cache.versions
                   == old(cache.versions) + CommitDisks(g, old(cache.disk), lh, old(cache.dirty), CommitLength(|lh|))
    {
      ghost var d, dirty, v, lh := cache.disk, cache.dirty, cache.versions, Entries();
      if n > 0 {
        WriteLog();
        WriteHead();
        ghost var h := cache.disk;
        assert h == CommitDisk(g, d, lh, dirty, |lh| + 1);
        assert cache.versions == v + CommitDisks(g, d, lh, dirty, |lh| + 1);
        InstallTrans();
        WholeCommit(g, d, lh, dirty, v);
        n := 0;
        assert Entries() == [];
        WriteHead();
      }
    }

    /** Records that block b now has the given contents: absorbed if already
        listed, appended if not, and pinned. Returns false for a panic. */
    method LogWrite(b: nat, data: Block) returns (ok: bool)
      requires Valid() && b < |cache.disk|
      modifies this`n, block, cache
      ensures Valid()
      ensures ok <==> old(n) < LOGSIZE && old(n) < g.size - 1 && outstanding >= 1
      ensures cache.disk == old(cache.disk) && cache.versions == old(cache.versions)
      ensures ok ==> Entries() == LogCrash.Absorb(old(Entries()), b) && cache.dirty == old(cache.dirty)[b := data]
      ensures !ok ==> Entries() == old(Entries()) && cache.dirty == old(cache.dirty)
    {
      if n >= LOGSIZE || n >= g.size - 1 || outstanding < 1 { return false; }
      var i := 0;
      while i < n && block[i] != b
        invariant 0 <= i <= n && b !in block[..i]
      {
        i := i + 1;
      }
      block[i] := b;
      if i == n { n := n + 1; }
      cache.dirty := cache.dirty[b := data];
      return true;
    }

    /** One turn of begin_op's loop: false means that the caller sleeps. */
    method BeginOp() returns (admitted: bool)
      requires Valid()
      modifies this`outstanding
      ensures Valid()
      ensures admitted <==> !committing && n + (old(outstanding) + 1) * MAXOPBLOCKS <= LOGSIZE
      ensures outstanding == old(outstanding) + (if admitted then 1 else 0)
    {
      if committing { return false; }
      if n + (outstanding + 1) * MAXOPBLOCKS > LOGSIZE { return false; }
      outstanding := outstanding + 1;
      return true;
    }

    /** The last operation out commits; the others leave the disk alone. */
    method EndOp()
      requires Valid() && EntriesAreHome() && NoDirtyLog() && outstanding >= 1 && !committing
      requires forall b :: b in cache.dirty ==> b in Entries()
      modifies this`n, this`outstanding, this`committing, cache
      ensures Valid() && outstanding == old(outstanding) - 1 && !committing
      ensures outstanding > 0 ==>
                && n == old(n) && cache.disk == old(cache.disk)
                && cache.dirty == old(cache.dirty) && cache.versions == old(cache.versions)
      ensures outstanding == 0 ==>
                var lh := old(Entries());
                && n == 0 && cache.dirty == map[] && EntriesOk(g, old(cache.disk), lh)
                && cache.disk == CommitDisk(g, old(cache.disk), lh, old(cache.dirty), CommitLength(|lh|))
                && cache.versions
                     == old(cache.versions) + CommitDisks(g, old(cache.disk), lh, old(cache.dirty), CommitLength(|lh|))
    {
      outstanding := outstanding - 1;
      if outstanding == 0 {
        committing := true;
        Commit();
        committing := false;
      }
    }
  }

  // ---------- the methods and the step machine agree ----------

  /** t follows s after k commit steps in a row. */
  ghost predicate CommitSteps(c: LogCrash.Config, k: nat, s: LogCrash.State, t: LogCrash.State) {
    if k == 0 then s == t
    else exists m :: CommitSteps(c, k - 1, s, m) && LogCrash.Commits(c, m, t)
  }

  /** The machine's commit steps make exactly the disks that commit() makes. */
  lemma {:induction false} SameCommitDisks(c: LogCrash.Config, k: nat, s: LogCrash.State, t: LogCrash.State)
    requires EntriesOk(c.g, s.disk, s.lh) && s.mode == LogCrash.Committing(0)
    requires CommitSteps(c, k, s, t)
    ensures k <= CommitLength(|s.lh|) && t.lh == s.lh && t.mode == LogCrash.Committing(k)
    ensures t.disk == CommitDisk(c.g, s.disk, s.lh, s.dirty, k)
    ensures k <= |s.lh| ==> t.dirty == s.dirty
  {
    hide LogCrash.Commits;
    if k > 0 {
      var m :| CommitSteps(c, k - 1, s, m) && LogCrash.Commits(c, m, t);
      SameCommitDisks(c, k - 1, s, m);
      OneCommitStep(c, m, t, s.dirty);
    }
  }

  lemma OneCommitStep(c: LogCrash.Config, m: LogCrash.State, t: LogCrash.State, dirty: map<nat, Block>)
    requires LogCrash.Commits(c, m, t)
    requires m.mode.pc <= |m.lh| ==> m.dirty == dirty
    ensures m.mode.pc < CommitLength(|m.lh|) && t.lh == m.lh && t.mode == LogCrash.Committing(m.mode.pc + 1)
    ensures EntriesOk(c.g, m.disk, m.lh)
    ensures t.disk == Apply(m.disk, CommitWrite(c.g, m.disk, m.lh, dirty, m.mode.pc))
    ensures m.mode.pc < |m.lh| ==> t.dirty == dirty
  {
  }

  /** Recovery's k-th write, on a disk it has already worked on. */
  lemma RecoveryStep(g: Geometry, p: Disk, lh: seq<nat>, k: nat, r: Disk)
    requires LogCrash.Recoverable(g, p, r) && ReadHeader(p[g.start]) == lh
    requires k <= |lh| && LogCrash.Installed(p, lh, k, r)
    ensures EntriesOk(g, p, lh)
    ensures var e := Apply(p, RecoverWrite(g, p, lh, k));
            && LogCrash.Recoverable(g, e, r)
            && (k < |lh| ==> ReadHeader(e[g.start]) == lh && LogCrash.Installed(e, lh, k + 1, r))
            && (k == |lh| ==> ReadHeader(e[g.start]) == [] && LogCrash.SameHome(g, e, r))
  {
    if k < |lh| {
      LogCrash.Install(g, p, r, k);
      LogCrash.InstallsOneMore(p, lh, k, r);
    } else {
      LogCrash.Erase(g, p, r);
    }
  }

  /** What recovery does to any disk that a run can leave behind: a crash after
      any number of its writes leaves a disk it can start over from, and running
      to its end puts r at home and empties the log. */
  lemma {:induction false} RecoveryYields(g: Geometry, d: Disk, r: Disk, k: nat)
    requires LogCrash.Recoverable(g, d, r) && k <= |ReadHeader(d[g.start])| + 1
    ensures var lh := ReadHeader(d[g.start]);
            && EntriesOk(g, d, lh)
            && var e := RecoverDisk(g, d, lh, k);
            && LogCrash.Recoverable(g, e, r)
            && (k <= |lh| ==> ReadHeader(e[g.start]) == lh && LogCrash.Installed(e, lh, k, r))
            && (k == |lh| + 1 ==> ReadHeader(e[g.start]) == [] && LogCrash.SameHome(g, e, r))
  {
    var lh := ReadHeader(d[g.start]);
    RecoveryStep(g, d, lh, 0, r);
    assert LogCrash.Installed(d, lh, 0, r);
    hide LogCrash.Installed, LogCrash.SameHome, RecoverWrite;
    if k > 0 {
      RecoveryYields(g, d, r, k - 1);
      RecoveryStep(g, RecoverDisk(g, d, lh, k - 1), lh, k - 1, r);
    }
  }
}
