/**
 Group commit with crashes (log.c lines 115-233) as a step machine. Processes
 begin operations, log blocks and end operations in any interleaving; the last
 end_op commits; one block write is one step, and a crash may come between any
 two steps, a recovery's own steps included.

 hist records every logged block with the operation that logged it, and done is
 how much of hist has passed a commit point; neither influences a step.
*/
module LogCrash {
  import opened Common
  import opened LogFormat

  /** One logged block. */
  datatype Event = Event(op: nat, bno: nat, data: Block)

  /** An operation between begin_op and end_op: the distinct blocks it has
      logged, and whether it has passed log_write's unlocked size check. */
  datatype Op = Op(id: nat, blocks: set<nat>, checked: bool)

  datatype Mode = Normal | Committing(pc: nat) | Recovering(pc: nat)

  datatype State = State(
    disk: Disk,
    lh: seq<nat>,
    dirty: map<nat, Block>,
    mode: Mode,
    open: seq<Op>,
    next: nat,
    hist: seq<Event>,
    done: nat)

  /** Where the log lies and what the disk held at the start. */
  datatype Config = Config(g: Geometry, base: Disk)

  /** The disk contents that a history of whole-block updates stands for. */
  function Replay(base: Disk, h: seq<Event>): (r: Disk)
    ensures |r| == |base|
  {
    if h == [] then base
    else
      var r := Replay(base, h[..|h| - 1]);
      var e := h[|h| - 1];
      if e.bno < |r| then r[e.bno := e.data] else r
  }

  function Absorb(lh: seq<nat>, b: nat): seq<nat> {
    if b in lh then lh else lh + [b]
  }

  // ---------- steps; a panic of the source is a step that cannot be taken ----------

  datatype Step =
    | Begin
    | Check(i: nat)
    | Append(i: nat, bno: nat, data: Block)
    | End(i: nat)
    | Commit
    | CommitDone
    | Crash
    | Recover
    | RecoverDone

  ghost predicate Begins(s: State, t: State) {
    && s.mode.Normal?
    && |s.lh| + (|s.open| + 1) * MAXOPBLOCKS <= LOGSIZE
    && t == s.(open := s.open + [Op(s.next, {}, false)], next := s.next + 1)
  }

  /** log_write's panic check, made before log.lock is taken. */
  ghost predicate Checks(c: Config, s: State, i: nat, t: State) {
    && s.mode.Normal? && i < |s.open| && !s.open[i].checked
    && |s.lh| < LOGSIZE && |s.lh| < c.g.size - 1
    && t == s.(open := s.open[i := s.open[i].(checked := true)])
  }

  /** The rest of log_write, by an operation that stays within MAXOPBLOCKS blocks. */
  ghost predicate Appends(c: Config, s: State, i: nat, b: nat, data: Block, t: State) {
    && s.mode.Normal? && i < |s.open| && s.open[i].checked
    && IsHome(c.g, |c.base|, b)
    && |s.open[i].blocks + {b}| <= MAXOPBLOCKS
    && t == s.(
         lh := Absorb(s.lh, b),
         dirty := s.dirty[b := data],
         open := s.open[i := Op(s.open[i].id, s.open[i].blocks + {b}, false)],
         hist := s.hist + [Event(s.open[i].id, b, data)])
  }

  ghost predicate Ends(s: State, i: nat, t: State) {
    && s.mode.Normal? && i < |s.open| && !s.open[i].checked
    && var rest := s.open[..i] + s.open[i + 1..];
       t == s.(open := rest, mode := if rest == [] then Committing(0) else Normal)
  }

  /** One block write of commit(). Copying into the log takes one buffer beyond
      the pinned ones, or bget panics. bwrite of a home block unpins it. */
  ghost predicate Commits(c: Config, s: State, t: State) {
    && s.mode.Committing? && s.mode.pc < CommitLength(|s.lh|)
    && EntriesOk(c.g, s.disk, s.lh)
    && var n, pc := |s.lh|, s.mode.pc;
       var w := CommitWrite(c.g, s.disk, s.lh, s.dirty, pc);
    && (pc < n ==> n < NBUF)
    && t == s.(
         disk := Apply(s.disk, w),
         dirty := if n < pc < 2 * n + 1 then s.dirty - {w.bno} else s.dirty,
         mode := Committing(pc + 1),
         done := if pc == n then |s.hist| else s.done)
  }

  ghost predicate CommitFinishes(s: State, t: State) {
    && s.mode.Committing? && s.mode.pc == CommitLength(|s.lh|)
    && t == s.(lh := [], dirty := map[], mode := Normal)
  }

  /** Memory is lost, and the reboot reads the header from the disk. */
  ghost predicate Crashes(c: Config, s: State, t: State) {
    && c.g.start < |s.disk| && HeaderOk(s.disk[c.g.start])
    && s.done <= |s.hist|
    && t == s.(lh := ReadHeader(s.disk[c.g.start]), dirty := map[], open := [],
               mode := Recovering(0), hist := s.hist[..s.done])
  }

  ghost predicate Recovers(c: Config, s: State, t: State) {
    && s.mode.Recovering? && s.mode.pc <= |s.lh|
    && EntriesOk(c.g, s.disk, s.lh)
    && t == s.(disk := Apply(s.disk, RecoverWrite(c.g, s.disk, s.lh, s.mode.pc)),
               mode := Recovering(s.mode.pc + 1))
  }

  ghost predicate RecoveryFinishes(s: State, t: State) {
    && s.mode.Recovering? && s.mode.pc == |s.lh| + 1
    && t == s.(lh := [], mode := Normal)
  }

  ghost predicate Next(c: Config, s: State, a: Step, t: State) {
    match a
    case Begin => Begins(s, t)
    case Check(i) => Checks(c, s, i, t)
    case Append(i, b, data) => Appends(c, s, i, b, data, t)
    case End(i) => Ends(s, i, t)
    case Commit => Commits(c, s, t)
    case CommitDone => CommitFinishes(s, t)
    case Crash => Crashes(c, s, t)
    case Recover => Recovers(c, s, t)
    case RecoverDone => RecoveryFinishes(s, t)
  }

  /** A fresh system: the log is empty and lies inside the disk. */
  ghost predicate Initial(c: Config, s: State) {
    && GeometryOk(c.g, c.base)
    && HeaderOk(c.base[c.g.start]) && ReadHeader(c.base[c.g.start]) == []
    && s == State(c.base, [], map[], Normal, [], 0, [], 0)
  }

  // ---------- the invariant ----------

  /** A disk from which recovery yields r at every home block. */
  ghost predicate Recoverable(g: Geometry, d: Disk, r: Disk) {
    && |d| == |r| && GeometryOk(g, d) && HeaderOk(d[g.start])
    && var lh := ReadHeader(d[g.start]);
    && Distinct(lh) && |lh| < g.size
    && (forall i :: 0 <= i < |lh| ==> IsHome(g, |d|, lh[i]) && d[g.start + 1 + i] == r[lh[i]])
    && (forall b: nat {:trigger IsHome(g, |d|, b)} :: IsHome(g, |d|, b) && b !in lh ==> d[b] == r[b])
  }

  ghost predicate SameHome(g: Geometry, d: Disk, r: Disk) {
    |d| == |r| && forall b: nat {:trigger IsHome(g, |d|, b)} :: IsHome(g, |d|, b) ==> d[b] == r[b]
  }

  /** Every reader sees the history's effect. */
  ghost predicate ViewIs(g: Geometry, d: Disk, dirty: map<nat, Block>, r: Disk) {
    |d| == |r| && forall b: nat {:trigger IsHome(g, |d|, b)} :: IsHome(g, |d|, b) ==> View(d, dirty, b) == r[b]
  }

  /** The log slots still promised to open operations. */
  function Unused(open: seq<Op>): int {
    if open == [] then 0 else Unused(open[..|open| - 1]) + (MAXOPBLOCKS - |open[|open| - 1].blocks|)
  }

  /** hist[..k] holds all or none of each operation's events. */
  ghost predicate Closed(h: seq<Event>, k: nat)
    requires k <= |h|
  {
    forall i, j :: 0 <= i < k <= j < |h| ==> h[i].op != h[j].op
  }

  ghost predicate OpsInv(open: seq<Op>, next: nat, hist: seq<Event>, done: nat)
    requires done <= |hist|
  {
    && (forall i, j :: 0 <= i < j < |open| ==> open[i].id != open[j].id)
    && (forall i :: 0 <= i < |open| ==> open[i].id < next && |open[i].blocks| <= MAXOPBLOCKS)
    && (forall k :: 0 <= k < |hist| ==> hist[k].op < next)
    && (forall k, i :: 0 <= k < done && 0 <= i < |open| ==> hist[k].op != open[i].id)
    && Closed(hist, done)
  }

  /** The entries of the in-memory header. */
  ghost predicate EntriesInv(c: Config, lh: seq<nat>) {
    && Distinct(lh) && |lh| <= LOGSIZE
    && (forall i :: 0 <= i < |lh| ==> IsHome(c.g, |c.base|, lh[i]))
  }

  /** Reservations, pinning and what is not yet committed, outside a commit. */
  ghost predicate NormalInv(lh: seq<nat>, dirty: map<nat, Block>, open: seq<Op>, hist: seq<Event>, done: nat) {
    && |lh| + Unused(open) <= LOGSIZE
    && (forall b :: b in dirty <==> b in lh)
    && (forall i, b :: 0 <= i < |open| && b in open[i].blocks ==> b in lh)
    && (forall k :: done <= k < |hist| ==> hist[k].bno in lh)
  }

  ghost predicate HeaderIs(c: Config, d: Disk, lh: seq<nat>) {
    c.g.start < |d| && HeaderOk(d[c.g.start]) && ReadHeader(d[c.g.start]) == lh
  }

  /** The first k entries have their final contents r at home. */
  ghost predicate Installed(d: Disk, lh: seq<nat>, k: int, r: Disk) {
    forall i :: 0 <= i < k && i < |lh| && lh[i] < |d| && lh[i] < |r| ==> d[lh[i]] == r[lh[i]]
  }

  /** The first k log slots hold what r has at the entries' homes. */
  ghost predicate Logged(c: Config, d: Disk, lh: seq<nat>, k: int, r: Disk) {
    forall i :: 0 <= i < k && i < |lh| && lh[i] < |r| && c.g.start + 1 + i < |d|
      ==> d[c.g.start + 1 + i] == r[lh[i]]
  }

  ghost predicate CommitInv(c: Config, s: State, pc: nat) {
    var n, r := |s.lh|, Replay(c.base, s.hist);
    && pc <= CommitLength(n) && s.open == []
    && (forall b :: b in s.dirty ==> b in s.lh)
    && (n == 0 ==> s.done == |s.hist| && HeaderIs(c, s.disk, []))
    && (pc > 0 ==> n < NBUF)
    && (pc <= n ==>
          && HeaderIs(c, s.disk, [])
          && (forall b :: b in s.lh ==> b in s.dirty)
          && Logged(c, s.disk, s.lh, pc, r))
    && (n < pc ==> s.done == |s.hist|)
    && (n < pc < 2 * n + 2 ==> HeaderIs(c, s.disk, s.lh) && Installed(s.disk, s.lh, pc - n - 1, r))
    && (n > 0 && pc == 2 * n + 2 ==> HeaderIs(c, s.disk, []))
  }

  ghost predicate RecoverInv(c: Config, s: State, pc: nat) {
    var n, r := |s.lh|, Replay(c.base, s.hist);
    && s.done == |s.hist| && s.open == [] && s.dirty == map[]
    && pc <= n + 1
    && (pc <= n ==> HeaderIs(c, s.disk, s.lh) && Installed(s.disk, s.lh, pc, r))
    && (pc == n + 1 ==> HeaderIs(c, s.disk, []))
  }

  ghost predicate Inv(c: Config, s: State) {
    && GeometryOk(c.g, c.base)
    && s.done <= |s.hist|
    && Recoverable(c.g, s.disk, Replay(c.base, s.hist[..s.done]))
    && (!s.mode.Recovering? ==> ViewIs(c.g, s.disk, s.dirty, Replay(c.base, s.hist)))
    && OpsInv(s.open, s.next, s.hist, s.done)
    && EntriesInv(c, s.lh)
    && (s.mode.Normal? ==>
          NormalInv(s.lh, s.dirty, s.open, s.hist, s.done) && HeaderIs(c, s.disk, []))
    && (s.mode.Committing? ==> CommitInv(c, s, s.mode.pc))
    && (s.mode.Recovering? ==> RecoverInv(c, s, s.mode.pc))
  }

  // ---------- reservations ----------

  lemma {:induction false} UnusedUpdate(open: seq<Op>, i: nat, o: Op)
    requires i < |open|
    ensures Unused(open[i := o]) == Unused(open) + |open[i].blocks| - |o.blocks|
    decreases |open|
  {
    var last := |open| - 1;
    if i == last {
      assert open[i := o][..last] == open[..last];
    } else {
      UnusedUpdate(open[..last], i, o);
      assert open[i := o][..last] == open[..last][i := o];
    }
  }

  lemma {:induction false} UnusedRemove(open: seq<Op>, i: nat)
    requires i < |open|
    ensures Unused(open[..i] + open[i + 1..]) == Unused(open) - (MAXOPBLOCKS - |open[i].blocks|)
    decreases |open|
  {
    var last, cut := |open| - 1, open[..i] + open[i + 1..];
    if i == last {
      assert cut == open[..last];
    } else {
      UnusedRemove(open[..last], i);
      assert cut[..|cut| - 1] == open[..last][..i] + open[..last][i + 1..];
    }
  }

  lemma {:induction false} UnusedBounds(open: seq<Op>)
    ensures Unused(open) <= |open| * MAXOPBLOCKS
    ensures (forall i :: 0 <= i < |open| ==> |open[i].blocks| <= MAXOPBLOCKS) ==> Unused(open) >= 0
    decreases |open|
  {
    if open != [] { UnusedBounds(open[..|open| - 1]); }
  }

  // ---------- what one block write does to a recoverable disk ----------

  lemma SlotWrite(g: Geometry, d: Disk, r: Disk, i: nat, data: Block)
    requires Recoverable(g, d, r) && ReadHeader(d[g.start]) == []
    requires i + 1 < g.size
    ensures Recoverable(g, d[g.start + 1 + i := data], r)
  {
  }

  lemma CommitPoint(g: Geometry, d: Disk, lh: seq<nat>, r: Disk)
    requires |d| == |r| && GeometryOk(g, d) && |lh| < g.size && Distinct(lh)
    requires forall i :: 0 <= i < |lh| ==> IsHome(g, |d|, lh[i]) && d[g.start + 1 + i] == r[lh[i]]
    requires forall b: nat {:trigger IsHome(g, |d|, b)} :: IsHome(g, |d|, b) && b !in lh ==> d[b] == r[b]
    ensures var d' := d[g.start := WriteHeader(d[g.start], lh)];
            Recoverable(g, d', r) && g.start < |d'| && HeaderOk(d'[g.start]) && ReadHeader(d'[g.start]) == lh
  {
    HeaderRoundTrip(d[g.start], lh);
  }

  lemma Install(g: Geometry, d: Disk, r: Disk, i: nat)
    requires Recoverable(g, d, r) && i < |ReadHeader(d[g.start])|
    ensures var b := ReadHeader(d[g.start])[i];
            var d' := d[b := d[g.start + 1 + i]];
            Recoverable(g, d', r) && d'[g.start] == d[g.start] && d'[b] == r[b]
  {
    var lh := ReadHeader(d[g.start]);
    assert d[lh[i] := d[g.start + 1 + i]][g.start] == d[g.start];
  }

  lemma Erase(g: Geometry, d: Disk, r: Disk)
    requires Recoverable(g, d, r)
    requires var lh := ReadHeader(d[g.start]); forall i :: 0 <= i < |lh| ==> d[lh[i]] == r[lh[i]]
    ensures var d' := d[g.start := WriteHeader(d[g.start], [])];
            Recoverable(g, d', r) && ReadHeader(d'[g.start]) == [] && SameHome(g, d', r)
  {
    HeaderRoundTrip(d[g.start], []);
  }

  lemma ViewAfterLogWrite(g: Geometry, d: Disk, dirty: map<nat, Block>, r: Disk, b: nat, data: Block)
    requires ViewIs(g, d, dirty, r) && b < |d| && InLog(g, b)
    ensures ViewIs(g, d[b := data], dirty, r)
  {
  }

  lemma ViewAfterInstall(g: Geometry, d: Disk, dirty: map<nat, Block>, r: Disk, b: nat)
    requires ViewIs(g, d, dirty, r) && b < |d|
    ensures ViewIs(g, d[b := r[b]], dirty - {b}, r)
  {
  }

  lemma ViewAfterAppend(g: Geometry, d: Disk, dirty: map<nat, Block>, r: Disk, b: nat, data: Block)
    requires ViewIs(g, d, dirty, r) && b < |d|
    ensures ViewIs(g, d, dirty[b := data], r[b := data])
  {
  }

  lemma InstallsOneMore(d: Disk, lh: seq<nat>, k: nat, r: Disk)
    requires Installed(d, lh, k, r) && k < |lh| && lh[k] < |d| && lh[k] < |r|
    ensures Installed(d[lh[k] := r[lh[k]]], lh, k + 1, r)
  {
  }

  lemma LogsOneMore(c: Config, d: Disk, lh: seq<nat>, k: nat, r: Disk)
    requires Logged(c, d, lh, k, r) && k < |lh| && c.g.start + 1 + k < |d| && lh[k] < |r|
    ensures Logged(c, d[c.g.start + 1 + k := r[lh[k]]], lh, k + 1, r)
  {
  }

  lemma AbsorbEntries(c: Config, lh: seq<nat>, b: nat)
    requires EntriesInv(c, lh) && IsHome(c.g, |c.base|, b)
    ensures |Absorb(lh, b)| <= LOGSIZE ==> EntriesInv(c, Absorb(lh, b))
    ensures forall x :: x in Absorb(lh, b) <==> x == b || x in lh
    ensures |Absorb(lh, b)| == |lh| + (if b in lh then 0 else 1)
  {
  }

  // ---------- every step keeps the invariant ----------

  lemma BeginKeeps(c: Config, s: State, t: State)
    requires Inv(c, s) && Begins(s, t)
    ensures Inv(c, t)
  {
    OpsAfterBegin(s.open, s.next, s.hist, s.done);
    NormalAfterBegin(s.lh, s.dirty, s.open, s.hist, s.done, s.next);
  }

  lemma OpsAfterBegin(open: seq<Op>, next: nat, hist: seq<Event>, done: nat)
    requires done <= |hist| && OpsInv(open, next, hist, done)
    ensures OpsInv(open + [Op(next, {}, false)], next + 1, hist, done)
  {
  }

  lemma NormalAfterBegin(lh: seq<nat>, dirty: map<nat, Block>, open: seq<Op>, hist: seq<Event>, done: nat, id: nat)
    requires NormalInv(lh, dirty, open, hist, done)
    requires |lh| + (|open| + 1) * MAXOPBLOCKS <= LOGSIZE
    ensures NormalInv(lh, dirty, open + [Op(id, {}, false)], hist, done)
  {
    var open' := open + [Op(id, {}, false)];
    assert open'[..|open'| - 1] == open;
    UnusedBounds(open);
  }

  lemma CheckKeeps(c: Config, s: State, i: nat, t: State)
    requires Inv(c, s) && Checks(c, s, i, t)
    ensures Inv(c, t)
  {
    UnusedUpdate(s.open, i, s.open[i].(checked := true));
  }

  lemma AppendKeeps(c: Config, s: State, i: nat, b: nat, data: Block, t: State)
    requires Inv(c, s) && Appends(c, s, i, b, data, t)
    ensures Inv(c, t)
  {
    var o := s.open[i];
    assert t.hist[..|t.hist| - 1] == s.hist;
    assert t.hist[..t.done] == s.hist[..s.done];
    ViewAfterAppend(c.g, s.disk, s.dirty, Replay(c.base, s.hist), b, data);
    AbsorbEntries(c, s.lh, b);
    NormalAfterAppend(s.lh, s.dirty, s.open, s.hist, s.done, i, b, data);
    OpsAfterAppend(s.open, s.next, s.hist, s.done, i, t.open[i].blocks, b, data);
  }

  /** Each operation draws on its own reservation. */
  lemma NormalAfterAppend(lh: seq<nat>, dirty: map<nat, Block>, open: seq<Op>, hist: seq<Event>, done: nat,
                          i: nat, b: nat, data: Block)
    requires done <= |hist| && NormalInv(lh, dirty, open, hist, done)
    requires i < |open| && |open[i].blocks + {b}| <= MAXOPBLOCKS
    requires forall j :: 0 <= j < |open| ==> |open[j].blocks| <= MAXOPBLOCKS
    ensures var o := Op(open[i].id, open[i].blocks + {b}, false);
            && NormalInv(Absorb(lh, b), dirty[b := data], open[i := o], hist + [Event(open[i].id, b, data)], done)
            && |Absorb(lh, b)| <= LOGSIZE
  {
    var o := Op(open[i].id, open[i].blocks + {b}, false);
    UnusedUpdate(open, i, o);
    UnusedBounds(open[i := o]);
    assert b !in lh ==> b !in open[i].blocks && |o.blocks| == |open[i].blocks| + 1;
  }

  /** An open operation's new event belongs to no committed operation. */
  lemma OpsAfterAppend(open: seq<Op>, next: nat, hist: seq<Event>, done: nat,
                       i: nat, blocks: set<nat>, b: nat, data: Block)
    requires done <= |hist| && OpsInv(open, next, hist, done)
    requires i < |open| && |blocks| <= MAXOPBLOCKS
    ensures OpsInv(open[i := Op(open[i].id, blocks, false)], next, hist + [Event(open[i].id, b, data)], done)
  {
  }

  lemma EndKeeps(c: Config, s: State, i: nat, t: State)
    requires Inv(c, s) && Ends(s, i, t)
    ensures Inv(c, t)
  {
    OpsAfterEnd(s.open, s.next, s.hist, s.done, i);
    NormalAfterEnd(s.lh, s.dirty, s.open, s.hist, s.done, i);
    assert s.done < |s.hist| ==> s.hist[s.done].bno in s.lh;
  }

  lemma OpsAfterEnd(open: seq<Op>, next: nat, hist: seq<Event>, done: nat, i: nat)
    requires done <= |hist| && OpsInv(open, next, hist, done) && i < |open|
    ensures OpsInv(open[..i] + open[i + 1..], next, hist, done)
  {
  }

  lemma NormalAfterEnd(lh: seq<nat>, dirty: map<nat, Block>, open: seq<Op>, hist: seq<Event>, done: nat, i: nat)
    requires NormalInv(lh, dirty, open, hist, done) && i < |open| && |open[i].blocks| <= MAXOPBLOCKS
    ensures NormalInv(lh, dirty, open[..i] + open[i + 1..], hist, done)
  {
    UnusedRemove(open, i);
  }

  lemma CommitKeeps(c: Config, s: State, t: State)
    requires Inv(c, s) && Commits(c, s, t)
    ensures Inv(c, t)
  {
    var n, pc := |s.lh|, s.mode.pc;
    if pc < n { CommitLogs(c, s, t); }
    else if pc == n { CommitPasses(c, s, t); }
    else if pc < 2 * n + 1 { CommitInstalls(c, s, t); }
    else { CommitErases(c, s, t); }
  }

  lemma CommitLogs(c: Config, s: State, t: State)
    requires Inv(c, s) && Commits(c, s, t) && s.mode.pc < |s.lh|
    ensures Inv(c, t)
  {
    var pc := s.mode.pc;
    var data := View(s.disk, s.dirty, s.lh[pc]);
    SlotWrite(c.g, s.disk, Replay(c.base, s.hist[..s.done]), pc, data);
    assert CommitWrite(c.g, s.disk, s.lh, s.dirty, pc) == Write(c.g.start + 1 + pc, data);
    assert data == Replay(c.base, s.hist)[s.lh[pc]];
    ViewAfterLogWrite(c.g, s.disk, s.dirty, Replay(c.base, s.hist), c.g.start + 1 + pc, data);
    LogsOneMore(c, s.disk, s.lh, pc, Replay(c.base, s.hist));
  }

  lemma PointFacts(c: Config, s: State)
    requires Inv(c, s) && s.mode == Committing(|s.lh|) && |s.lh| > 0
    ensures var r := Replay(c.base, s.hist);
            && |s.disk| == |r| && GeometryOk(c.g, s.disk) && Distinct(s.lh)
            && (forall i :: 0 <= i < |s.lh| ==>
                  IsHome(c.g, |s.disk|, s.lh[i]) && c.g.start + 1 + i < |s.disk|
                  && s.disk[c.g.start + 1 + i] == r[s.lh[i]])
            && ViewIs(c.g, s.disk, s.dirty, r) && InLog(c.g, c.g.start)
            && (forall b: nat {:trigger IsHome(c.g, |s.disk|, b)} ::
                  IsHome(c.g, |s.disk|, b) && b !in s.lh ==> s.disk[b] == r[b])
  {
    assert forall i :: 0 <= i < |s.lh| ==> IsHome(c.g, |c.base|, s.lh[i]);
  }

  lemma PassesPoint(c: Config, s: State, t: State)
    requires Inv(c, s) && Commits(c, s, t) && s.mode.pc == |s.lh|
    ensures s.hist[..|s.hist|] == s.hist && Recoverable(c.g, t.disk, Replay(c.base, s.hist))
    ensures HeaderIs(c, t.disk, t.lh) && ViewIs(c.g, t.disk, t.dirty, Replay(c.base, s.hist))
  {
    FewEntries(c, s);
    PointFacts(c, s);
    PassedDisk(c, s, t);
    hide Inv, Commits, CommitWrite, ViewIs, Recoverable, ReadHeader, WriteHeader, HeaderOk, Replay, InLog, IsHome;
    assert s.hist[..|s.hist|] == s.hist;
    var r, header := Replay(c.base, s.hist), WriteHeader(s.disk[c.g.start], s.lh);
    CommitPoint(c.g, s.disk, s.lh, r);
    ViewAfterLogWrite(c.g, s.disk, s.dirty, r, c.g.start, header);
  }

  lemma PassedDisk(c: Config, s: State, t: State)
    requires Commits(c, s, t) && s.mode.pc == |s.lh| && c.g.start < |s.disk|
    ensures t.disk == s.disk[c.g.start := WriteHeader(s.disk[c.g.start], s.lh)]
    ensures t.lh == s.lh && t.dirty == s.dirty
  {
  }

  lemma FewEntries(c: Config, s: State)
    requires Inv(c, s) && s.mode == Committing(|s.lh|) && 0 < CommitLength(|s.lh|)
    ensures 0 < |s.lh| < c.g.size
  {
  }

  lemma CommitPasses(c: Config, s: State, t: State)
    requires Inv(c, s) && Commits(c, s, t) && s.mode.pc == |s.lh|
    ensures Inv(c, t)
  {
    hide Recoverable, HeaderIs, ViewIs, EntriesInv, Installed, Logged, CommitWrite, NormalInv;
    PassesPoint(c, s, t);
    NothingInstalled(t.disk, t.lh, Replay(c.base, t.hist));
  }

  lemma NothingInstalled(d: Disk, lh: seq<nat>, r: Disk)
    ensures Installed(d, lh, 0, r)
  {
  }

  lemma CommitInstalls(c: Config, s: State, t: State)
    requires Inv(c, s) && Commits(c, s, t) && |s.lh| < s.mode.pc < 2 * |s.lh| + 1
    ensures Inv(c, t)
  {
    assert s.hist[..|s.hist|] == s.hist;
    var k, r := s.mode.pc - |s.lh| - 1, Replay(c.base, s.hist);
    Install(c.g, s.disk, r, k);
    assert CommitWrite(c.g, s.disk, s.lh, s.dirty, s.mode.pc) == Write(s.lh[k], s.disk[c.g.start + 1 + k]);
    assert s.disk[c.g.start + 1 + k] == r[s.lh[k]];
    ViewAfterInstall(c.g, s.disk, s.dirty, r, s.lh[k]);
    InstallsOneMore(s.disk, s.lh, k, r);
  }

  lemma CommitErases(c: Config, s: State, t: State)
    requires Inv(c, s) && Commits(c, s, t) && s.mode.pc == 2 * |s.lh| + 1
    ensures Inv(c, t)
  {
    assert s.hist[..|s.hist|] == s.hist;
    Erase(c.g, s.disk, Replay(c.base, s.hist));
    var header := WriteHeader(s.disk[c.g.start], []);
    assert t.disk == s.disk[c.g.start := header];
    ViewAfterLogWrite(c.g, s.disk, s.dirty, Replay(c.base, s.hist), c.g.start, header);
  }

  lemma CommitDoneKeeps(c: Config, s: State, t: State)
    requires Inv(c, s) && CommitFinishes(s, t)
    ensures Inv(c, t) && t.done == |t.hist|
  {
    assert s.hist[..|s.hist|] == s.hist;
  }

  lemma CrashKeeps(c: Config, s: State, t: State)
    requires Inv(c, s) && Crashes(c, s, t)
    ensures Inv(c, t)
  {
    assert t.hist[..t.done] == t.hist;
  }

  lemma RecoverKeeps(c: Config, s: State, t: State)
    requires Inv(c, s) && Recovers(c, s, t)
    ensures Inv(c, t)
  {
    assert s.hist[..|s.hist|] == s.hist;
    hide OpsInv, Closed, EntriesInv;
    if s.mode.pc < |s.lh| {
      RecoverInstalls(c, s, t);
    } else {
      RecoverErases(c, s, t);
    }
    hide Recoverable, HeaderIs, Installed;
  }

  lemma RecoverInstalls(c: Config, s: State, t: State)
    requires Inv(c, s) && Recovers(c, s, t) && s.mode.pc < |s.lh|
    ensures Recoverable(c.g, t.disk, Replay(c.base, t.hist)) && HeaderIs(c, t.disk, t.lh)
    ensures Installed(t.disk, t.lh, s.mode.pc + 1, Replay(c.base, t.hist))
  {
    hide OpsInv, Closed, ViewIs;
    assert s.hist[..|s.hist|] == s.hist;
    var r, pc := Replay(c.base, s.hist), s.mode.pc;
    Install(c.g, s.disk, r, pc);
    assert s.disk[c.g.start + 1 + pc] == r[s.lh[pc]];
    assert t.disk == s.disk[s.lh[pc] := r[s.lh[pc]]];
    InstallsOneMore(s.disk, s.lh, pc, r);
  }

  lemma RecoverErases(c: Config, s: State, t: State)
    requires Inv(c, s) && Recovers(c, s, t) && s.mode.pc == |s.lh|
    ensures Recoverable(c.g, t.disk, Replay(c.base, t.hist)) && HeaderIs(c, t.disk, [])
  {
    hide OpsInv, Closed, ViewIs;
    assert s.hist[..|s.hist|] == s.hist;
    Erase(c.g, s.disk, Replay(c.base, s.hist));
    assert t.disk == s.disk[c.g.start := WriteHeader(s.disk[c.g.start], [])];
  }

  lemma RecoverDoneKeeps(c: Config, s: State, t: State)
    requires Inv(c, s) && RecoveryFinishes(s, t)
    ensures Inv(c, t)
  {
    assert s.hist[..|s.hist|] == s.hist;
    Erase(c.g, s.disk, Replay(c.base, s.hist));
  }

  lemma NextKeeps(c: Config, s: State, a: Step, t: State)
    requires Inv(c, s) && Next(c, s, a, t)
    ensures Inv(c, t)
  {
    match a
    case Begin => BeginKeeps(c, s, t);
    case Check(i) => CheckKeeps(c, s, i, t);
    case Append(i, b, data) => AppendKeeps(c, s, i, b, data, t);
    case End(i) => EndKeeps(c, s, i, t);
    case Commit => CommitKeeps(c, s, t);
    case CommitDone => CommitDoneKeeps(c, s, t);
    case Crash => CrashKeeps(c, s, t);
    case Recover => RecoverKeeps(c, s, t);
    case RecoverDone => RecoverDoneKeeps(c, s, t);
  }

  // ---------- every run ----------

  /** t can be reached from s in n steps. */
  ghost predicate Steps(c: Config, n: nat, s: State, t: State) {
    if n == 0 then s == t
    else exists m, a :: Steps(c, n - 1, s, m) && Next(c, m, a, t)
  }

  lemma {:induction false} RunKeeps(c: Config, n: nat, s: State, t: State)
    requires Inv(c, s) && Steps(c, n, s, t)
    ensures Inv(c, t)
  {
    hide Inv, Next;
    if n > 0 {
      var m, a :| Steps(c, n - 1, s, m) && Next(c, m, a, t);
      RunKeeps(c, n - 1, s, m);
      NextKeeps(c, m, a, t);
    }
  }

  lemma InitialInv(c: Config, s: State)
    requires Initial(c, s)
    ensures Inv(c, s)
  {
    assert HeaderOk(s.disk[c.g.start]);
  }

  /** Main theorem. In every state of every run, however many crashes it has had,
      recovery would find the committed prefix of the history and nothing else;
      no operation is half in it; and outside recovery every reader sees the
      whole history. */
  lemma CrashAtomicity(c: Config, n: nat, s: State, t: State)
    requires Initial(c, s) && Steps(c, n, s, t)
    ensures t.done <= |t.hist|
    ensures Recoverable(c.g, t.disk, Replay(c.base, t.hist[..t.done]))
    ensures forall i, j :: 0 <= i < t.done <= j < |t.hist| ==> t.hist[i].op != t.hist[j].op
    ensures forall i, j :: 0 <= i < t.done && 0 <= j < |t.open| ==> t.hist[i].op != t.open[j].id
    ensures !t.mode.Recovering? ==> ViewIs(c.g, t.disk, t.dirty, Replay(c.base, t.hist))
  {
    InitialInv(c, s);
    RunKeeps(c, n, s, t);
  }

  /** Durability: what has passed a commit point is never lost or changed. */
  lemma {:induction false} Durable(c: Config, n: nat, s: State, t: State)
    requires Inv(c, s) && Steps(c, n, s, t)
    ensures s.done <= |s.hist| && t.done <= |t.hist|
    ensures s.hist[..s.done] <= t.hist[..t.done]
  {
    hide Inv, Next;
    RunKeeps(c, n, s, t);
    DoneInRange(c, s);
    DoneInRange(c, t);
    if n > 0 {
      var m, a :| Steps(c, n - 1, s, m) && Next(c, m, a, t);
      Durable(c, n - 1, s, m);
      RunKeeps(c, n - 1, s, m);
      CommittedGrows(c, m, a, t);
    }
  }

  lemma DoneInRange(c: Config, s: State)
    requires Inv(c, s)
    ensures s.done <= |s.hist|
  {
  }

  lemma CommittedGrows(c: Config, s: State, a: Step, t: State)
    requires Inv(c, s) && Next(c, s, a, t)
    ensures s.done <= |s.hist| && t.done <= |t.hist|
    ensures s.hist[..s.done] <= t.hist[..t.done]
    ensures s.hist[..s.done] != t.hist[..t.done] ==> s.open == [] && s.hist == t.hist[..t.done]
  {
  }

  /** What recovery finds is the whole history of an earlier moment of the run at
      which no operation was open: a prefix of whole commit groups. */
  lemma {:induction false} WholeGroups(c: Config, n: nat, s: State, t: State)
    requires Initial(c, s) && Steps(c, n, s, t)
    ensures t.done <= |t.hist|
    ensures exists k: nat, m :: k <= n && Steps(c, k, s, m) && m.open == [] && m.hist == t.hist[..t.done]
  {
    hide Inv, Next;
    InitialInv(c, s);
    RunKeeps(c, n, s, t);
    DoneInRange(c, t);
    if n == 0 {
      assert s.hist == t.hist[..t.done];
    } else {
      hide Initial;
      var p, a :| Steps(c, n - 1, s, p) && Next(c, p, a, t);
      WholeGroups(c, n - 1, s, p);
      RunKeeps(c, n - 1, s, p);
      CommittedGrows(c, p, a, t);
    }
  }

  /** When a commit has finished, everything logged before it is durable. */
  lemma CommitMakesDurable(c: Config, s: State, t: State)
    requires Inv(c, s) && CommitFinishes(s, t)
    ensures t.done == |t.hist| && t.hist == s.hist
    ensures SameHome(c.g, t.disk, Replay(c.base, t.hist))
  {
    assert s.hist[..|s.hist|] == s.hist;
  }

  /** A log slot written by a commit lies inside the log, and a home block written
      by it does not, although the reservations alone allow LOGSIZE entries in a
      region of LOGSIZE blocks whose first is the header. */
  lemma CommitStaysInPlace(c: Config, s: State, t: State)
    requires Inv(c, s) && Commits(c, s, t)
    ensures var pc, n := s.mode.pc, |s.lh|;
            var w := CommitWrite(c.g, s.disk, s.lh, s.dirty, pc);
            InLog(c.g, w.bno) <==> pc <= n || pc == 2 * n + 1
  {
    var pc, n := s.mode.pc, |s.lh|;
    if n < pc < 2 * n + 1 {
      assert IsHome(c.g, |c.base|, s.lh[pc - n - 1]);
    }
  }

  /** The reservation bound, and no logging while a commit or recovery runs. */
  lemma ReservationsFit(c: Config, n: nat, s: State, t: State)
    requires Initial(c, s) && Steps(c, n, s, t)
    ensures Distinct(t.lh) && |t.lh| <= LOGSIZE
    ensures t.mode.Normal? ==> |t.lh| + Unused(t.open) <= LOGSIZE && Unused(t.open) >= 0
    ensures !t.mode.Normal? ==> t.open == []
  {
    InitialInv(c, s);
    RunKeeps(c, n, s, t);
    UnusedBounds(t.open);
  }

  /** The run never gets stuck but for a panic: a crash can come at any moment, a
      recovery can always go on to its end, and a commit can unless its entries
      fill the buffer cache. */
  lemma NeverStuck(c: Config, s: State)
    requires Inv(c, s)
    ensures exists t :: Crashes(c, s, t)
    ensures s.mode.Recovering? ==> (exists t :: Recovers(c, s, t)) || (exists t :: RecoveryFinishes(s, t))
    ensures s.mode.Committing? ==>
              ((exists t :: Commits(c, s, t)) || (exists t :: CommitFinishes(s, t)) <==> s.mode.pc > 0 || |s.lh| < NBUF)
  {
    assert HeaderOk(s.disk[c.g.start]);
    var t := s.(lh := ReadHeader(s.disk[c.g.start]), dirty := map[], open := [],
                mode := Recovering(0), hist := s.hist[..s.done]);
    assert Crashes(c, s, t);
    if s.mode.Recovering? {
      RecoveryGoesOn(c, s);
    } else if s.mode.Committing? && (s.mode.pc > 0 || |s.lh| < NBUF) {
      CommitGoesOn(c, s);
    }
  }

  lemma RecoveryGoesOn(c: Config, s: State)
    requires Inv(c, s) && s.mode.Recovering?
    ensures (exists t :: Recovers(c, s, t)) || (exists t :: RecoveryFinishes(s, t))
  {
    if s.mode.pc <= |s.lh| {
      assert EntriesOk(c.g, s.disk, s.lh);
      var t := s.(disk := Apply(s.disk, RecoverWrite(c.g, s.disk, s.lh, s.mode.pc)), mode := Recovering(s.mode.pc + 1));
      assert Recovers(c, s, t);
    } else {
      assert RecoveryFinishes(s, s.(lh := [], mode := Normal));
    }
  }

  lemma CommitGoesOn(c: Config, s: State)
    requires Inv(c, s) && s.mode.Committing? && (s.mode.pc > 0 || |s.lh| < NBUF)
    ensures (exists t :: Commits(c, s, t)) || (exists t :: CommitFinishes(s, t))
  {
    var n, pc := |s.lh|, s.mode.pc;
    if pc < CommitLength(n) {
      assert EntriesOk(c.g, s.disk, s.lh);
      var w := CommitWrite(c.g, s.disk, s.lh, s.dirty, pc);
      var t := s.(disk := Apply(s.disk, w), dirty := if n < pc < 2 * n + 1 then s.dirty - {w.bno} else s.dirty,
                  mode := Committing(pc + 1), done := if pc == n then |s.hist| else s.done);
      assert Commits(c, s, t);
    } else {
      assert CommitFinishes(s, s.(lh := [], dirty := map[], mode := Normal));
    }
  }

  // ---------- a reservation is not quite a promise ----------

  /** log_write lets an operation with reserved blocks go on exactly when the log
      holds fewer than size - 1 entries, which is one less than was promised. */
  lemma CheckPassesExactly(c: Config, s: State, i: nat)
    requires Inv(c, s) && s.mode.Normal? && i < |s.open|
    requires !s.open[i].checked && |s.open[i].blocks| < MAXOPBLOCKS
    ensures (exists t :: Checks(c, s, i, t)) <==> |s.lh| != LOGSIZE - 1
  {
    var rest := s.open[..i] + s.open[i + 1..];
    UnusedRemove(s.open, i);
    UnusedBounds(rest);
    if |s.lh| < LOGSIZE - 1 {
      assert Checks(c, s, i, s.(open := s.open[i := s.open[i].(checked := true)]));
    }
  }

  /** An operation is admitted whenever ten blocks for each one open, itself among them, fit
      beside what is in the log. */
  lemma BeginsExactly(s: State)
    ensures (exists t :: Begins(s, t)) <==> s.mode.Normal? && |s.lh| + 10 * |s.open| <= 20
  {
    if s.mode.Normal? && |s.lh| + 10 * |s.open| <= 20 {
      assert Begins(s, s.(open := s.open + [Op(s.next, {}, false)], next := s.next + 1));
    }
  }

  /** One that has passed the check can log any home block that it has logged before, and
      any other up to its tenth. */
  lemma AppendsExactly(c: Config, s: State, i: nat, b: nat, data: Block)
    requires s.mode.Normal? && i < |s.open| && s.open[i].checked && |s.open[i].blocks| <= 10
    ensures (exists t :: Appends(c, s, i, b, data, t)) <==>
            && b < |c.base| && (b < c.g.start || b >= c.g.start + c.g.size)
            && (b in s.open[i].blocks || |s.open[i].blocks| < 10)
  {
    var blocks := s.open[i].blocks + {b};
    assert b in s.open[i].blocks ==> blocks == s.open[i].blocks;
    if IsHome(c.g, |c.base|, b) && |blocks| <= MAXOPBLOCKS {
      assert Appends(c, s, i, b, data,
          s.(lh := Absorb(s.lh, b),
             dirty := s.dirty[b := data],
             open := s.open[i := Op(s.open[i].id, blocks, false)],
             hist := s.hist + [Event(s.open[i].id, b, data)]));
    }
  }

  /** One that is not in the middle of a log_write can end. */
  lemma EndsExactly(s: State, i: nat)
    requires s.mode.Normal? && i < |s.open|
    ensures (exists t :: Ends(s, i, t)) <==> !s.open[i].checked
  {
    if !s.open[i].checked {
      var rest := s.open[..i] + s.open[i + 1..];
      assert Ends(s, i, s.(open := rest, mode := if rest == [] then Committing(0) else Normal));
    }
  }

  function Clip(x: int, hi: nat): nat {
    if x < 0 then 0 else if x > hi then hi else x
  }

  /** Three operations share the log's slots: 10 blocks, 9 and 9, and then one each for the
      second and the third. */
  function Who(k: nat): nat {
    if k < 10 then 0 else if k < 19 then 1 else if k < 28 then 2 else if k == 28 then 1 else 2
  }

  function Share(k: nat, j: nat): nat {
    if j == 0 then Clip(k, 10)
    else if j == 1 then Clip(k - 10, 9) + Clip(k - 28, 1)
    else Clip(k - 19, 9) + Clip(k - 29, 1)
  }

  /** Three operations are open and have logged k blocks between them. */
  ghost predicate Filled(c: Config, k: nat, t: State) {
    && t.mode.Normal? && |t.lh| == k && |t.open| == 3
    && (forall i :: 0 <= i < k ==> t.lh[i] < c.g.start + c.g.size + k)
    && (forall j :: 0 <= j < 3 ==> !t.open[j].checked && |t.open[j].blocks| <= Share(k, j))
  }

  lemma Extend(c: Config, n: nat, s: State, m: State, a: Step, t: State)
    requires Steps(c, n, s, m) && Next(c, m, a, t)
    ensures Steps(c, n + 1, s, t)
  {
  }

  lemma FillOne(c: Config, s: State, k: nat, m: State) returns (i: nat, m': State, b: nat, t: State)
    requires Initial(c, s) && Filled(c, k, m) && k < LOGSIZE - 1
    requires |c.base| >= c.g.start + c.g.size + LOGSIZE
    ensures Next(c, m, Check(i), m') && Next(c, m', Append(i, b, c.base[0]), t) && Filled(c, k + 1, t)
  {
    i, b := Who(k), c.g.start + c.g.size + k;
    m' := m.(open := m.open[i := m.open[i].(checked := true)]);
    assert Checks(c, m, i, m');
    assert |m'.open[i].blocks + {b}| <= |m'.open[i].blocks| + 1;
    var o := Op(m'.open[i].id, m'.open[i].blocks + {b}, false);
    t := m'.(lh := Absorb(m'.lh, b), dirty := m'.dirty[b := c.base[0]],
             open := m'.open[i := o], hist := m'.hist + [Event(m'.open[i].id, b, c.base[0])]);
    assert Appends(c, m', i, b, c.base[0], t);
  }

  lemma FillZero(c: Config, s: State) returns (n: nat, t: State)
    requires Initial(c, s)
    ensures Steps(c, n, s, t) && Filled(c, 0, t)
  {
    var s1 := s.(open := [Op(0, {}, false)], next := 1);
    var s2 := s1.(open := s1.open + [Op(1, {}, false)], next := 2);
    t := s2.(open := s2.open + [Op(2, {}, false)], next := 3);
    assert Begins(s, s1) && Begins(s1, s2) && Begins(s2, t) && Filled(c, 0, t);
    hide Filled, Begins;
    Extend(c, 0, s, s, Begin, s1);
    Extend(c, 1, s, s1, Begin, s2);
    Extend(c, 2, s, s2, Begin, t);
    n := 3;
  }

  lemma {:induction false} FillTo(c: Config, s: State, k: nat) returns (n: nat, t: State)
    requires Initial(c, s) && k < LOGSIZE
    requires |c.base| >= c.g.start + c.g.size + LOGSIZE
    ensures Steps(c, n, s, t) && Filled(c, k, t)
  {
    hide Filled, Next, Initial, Steps;
    if k == 0 {
      n, t := FillZero(c, s);
    } else {
      var n0, m := FillTo(c, s, k - 1);
      var i, m', b, t0 := FillOne(c, s, k - 1, m);
      Extend(c, n0, s, m, Check(i), m');
      Extend(c, n0 + 1, s, m', Append(i, b, c.base[0]), t0);
      n, t := n0 + 2, t0;
    }
  }

  /** So three operations that each stay within MAXOPBLOCKS can still panic. */
  lemma FullReservationsPanic(c: Config, s: State)
    requires Initial(c, s) && |c.base| >= c.g.start + c.g.size + LOGSIZE
    ensures exists n: nat, t ::
              && Steps(c, n, s, t) && t.mode.Normal? && |t.open| == 3
              && !t.open[2].checked && |t.open[2].blocks| < MAXOPBLOCKS
              && !(exists u :: Checks(c, t, 2, u))
  {
    var n, t := FillTo(c, s, LOGSIZE - 1);
  }

  /** The k-th block, appended by an operation that has passed its check already. */
  function Appended(c: Config, m: State, i: nat, k: nat): State
    requires i < |m.open| && |c.base| > 0
  {
    var b, o := c.g.start + c.g.size + k, m.open[i];
    m.(lh := Absorb(m.lh, b), dirty := m.dirty[b := c.base[0]],
       open := m.open[i := Op(o.id, o.blocks + {b}, false)], hist := m.hist + [Event(o.id, b, c.base[0])])
  }

  function Checked(m: State, i: nat): State
    requires i < |m.open|
  {
    m.(open := m.open[i := m.open[i].(checked := true)])
  }

  function Ended(m: State): State
    requires m.open != []
  {
    m.(open := m.open[1..], mode := if m.open[1..] == [] then Committing(0) else Normal)
  }

  /** Two operations pass the check when two slots are left, one of them the header's own,
      and both append. */
  lemma TwoAppend(c: Config, m: State) returns (m1: State, m2: State, m3: State, t: State)
    requires GeometryOk(c.g, c.base) && Filled(c, LOGSIZE - 2, m) && |c.base| >= c.g.start + c.g.size + LOGSIZE
    ensures Next(c, m, Check(1), m1) && Next(c, m1, Check(2), m2)
    ensures Next(c, m2, Append(1, c.g.start + c.g.size + (LOGSIZE - 2), c.base[0]), m3)
    ensures Next(c, m3, Append(2, c.g.start + c.g.size + (LOGSIZE - 1), c.base[0]), t)
    ensures t.mode.Normal? && |t.lh| == LOGSIZE && |t.open| == 3 && forall j :: 0 <= j < 3 ==> !t.open[j].checked
  {
    m1 := Checked(m, 1);
    m2 := Checked(m1, 2);
    m3 := Appended(c, m2, 1, LOGSIZE - 2);
    t := Appended(c, m3, 2, LOGSIZE - 1);
    var b1, b2 := c.g.start + c.g.size + (LOGSIZE - 2), c.g.start + c.g.size + (LOGSIZE - 1);
    assert |m2.open[1].blocks + {b1}| <= |m.open[1].blocks| + 1 && |m3.open[2].blocks + {b2}| <= |m.open[2].blocks| + 1;
    assert b1 !in m2.lh && b2 !in m3.lh;
  }

  lemma ThreeEnd(c: Config, m: State) returns (m1: State, m2: State, t: State)
    requires m.mode.Normal? && |m.open| == 3 && forall j :: 0 <= j < 3 ==> !m.open[j].checked
    ensures Next(c, m, End(0), m1) && Next(c, m1, End(0), m2) && Next(c, m2, End(0), t)
    ensures t.mode == Committing(0) && t.lh == m.lh
  {
    m1 := Ended(m);
    m2 := Ended(m1);
    t := Ended(m2);
    assert m.open[..0] + m.open[1..] == m.open[1..] && m1.open[..0] + m1.open[1..] == m1.open[1..];
    assert m2.open[..0] + m2.open[1..] == m2.open[1..] == [];
  }

  /** Two operations append and all three end, in seven more steps. */
  lemma SevenMore(c: Config, k: nat, s: State, m: State) returns (t: State)
    requires Steps(c, k, s, m) && GeometryOk(c.g, c.base) && Filled(c, LOGSIZE - 2, m)
    requires |c.base| >= c.g.start + c.g.size + LOGSIZE
    ensures Steps(c, k + 7, s, t) && t.mode == Committing(0) && |t.lh| == LOGSIZE
  {
    hide Steps, Next, Filled, GeometryOk;
    var b1, b2 := c.g.start + c.g.size + (LOGSIZE - 2), c.g.start + c.g.size + (LOGSIZE - 1);
    var m1, m2, m3, m4 := TwoAppend(c, m);
    Extend(c, k, s, m, Check(1), m1);
    Extend(c, k + 1, s, m1, Check(2), m2);
    Extend(c, k + 2, s, m2, Append(1, b1, c.base[0]), m3);
    Extend(c, k + 3, s, m3, Append(2, b2, c.base[0]), m4);
    var m5, m6;
    m5, m6, t := ThreeEnd(c, m4);
    Extend(c, k + 4, s, m4, End(0), m5);
    Extend(c, k + 5, s, m5, End(0), m6);
    Extend(c, k + 6, s, m6, End(0), t);
  }

  /** And the header can get one entry more than the log has slots. Then the commit that the
      last end_op begins cannot make its first block write: the pinned blocks leave it no
      buffer, and bget panics. */
  lemma OverfullCommitPanics(c: Config, s: State)
    requires Initial(c, s) && |c.base| >= c.g.start + c.g.size + LOGSIZE
    ensures exists n: nat, t ::
              && Steps(c, n, s, t) && t.mode == Committing(0) && |t.lh| == LOGSIZE == c.g.size
              && !(exists u :: Commits(c, t, u)) && !(exists u :: CommitFinishes(t, u))
  {
    hide Steps, Commits, CommitFinishes, Filled, Next;
    var n, m := FillTo(c, s, LOGSIZE - 2);
    var t := SevenMore(c, n, s, m);
    NoBuffer(c, t);
    assert Steps(c, n + 7, s, t);
  }

  lemma NoBuffer(c: Config, t: State)
    requires t.mode == Committing(0) && |t.lh| >= NBUF
    ensures !(exists u :: Commits(c, t, u)) && !(exists u :: CommitFinishes(t, u))
  {
  }

  // ---------- every record of operations is that of some run ----------

  /** Nobody is logging, and everything is committed. */
  predicate Idle(t: State) {
    t.mode.Normal? && t.open == [] && t.lh == []
  }

  function BlocksOf(es: seq<Event>): set<nat> {
    set e | e in es :: e.bno
  }

  /** One operation is open and has logged es. */
  ghost predicate LoggedSoFar(t: State, id: nat, h: seq<Event>, es: seq<Event>) {
    && t.mode.Normal? && t.open == [Op(id, BlocksOf(es), false)] && |t.lh| <= |BlocksOf(es)|
    && t.hist == h + es && t.next == id + 1
  }

  lemma BeginsOne(c: Config, s: State) returns (t: State)
    requires Idle(s)
    ensures Next(c, s, Begin, t) && LoggedSoFar(t, s.next, s.hist, [])
  {
    t := s.(open := s.open + [Op(s.next, {}, false)], next := s.next + 1);
    assert BlocksOf([]) == {};
  }

  lemma BlocksWith(es: seq<Event>, e: Event)
    ensures BlocksOf(es + [e]) == BlocksOf(es) + {e.bno}
  {
  }

  /** The log has no more entries than the operation has blocks. */
  lemma EntriesWith(c: Config, s: State, id: nat, h: seq<Event>, es: seq<Event>, e: Event)
    requires Inv(c, s) && LoggedSoFar(s, id, h, es)
    ensures |Absorb(s.lh, e.bno)| <= |BlocksOf(es + [e])|
  {
    BlocksWith(es, e);
    assert s.open[0].blocks == BlocksOf(es);
    if e.bno !in s.lh {
      assert e.bno !in BlocksOf(es);
    } else {
      SubsetSize(BlocksOf(es), BlocksOf(es + [e]));
    }
  }

  lemma OneMoreEvent(c: Config, s: State, id: nat, h: seq<Event>, es: seq<Event>, e: Event) returns (m: State, t: State)
    requires Inv(c, s) && LoggedSoFar(s, id, h, es) && e.op == id && IsHome(c.g, |c.base|, e.bno)
    requires |BlocksOf(es + [e])| <= MAXOPBLOCKS && |BlocksOf(es)| <= MAXOPBLOCKS
    ensures Next(c, s, Check(0), m) && Next(c, m, Append(0, e.bno, e.data), t) && LoggedSoFar(t, id, h, es + [e])
  {
    EntriesWith(c, s, id, h, es, e);
    BlocksWith(es, e);
    assert c.g.size == LOGSIZE;
    hide Inv, BlocksOf, Absorb, IsHome;
    m := Checked(s, 0);
    var o := Op(id, BlocksOf(es + [e]), false);
    t := m.(lh := Absorb(m.lh, e.bno), dirty := m.dirty[e.bno := e.data], open := m.open[0 := o], hist := m.hist + [e]);
    assert h + es + [e] == h + (es + [e]);
  }

  lemma BlocksMore(es: seq<Event>, j: nat)
    requires j <= |es|
    ensures |BlocksOf(es[..j])| <= |BlocksOf(es)|
  {
    SubsetSize(BlocksOf(es[..j]), BlocksOf(es));
  }

  lemma {:induction false} LogsAll(c: Config, n: nat, s: State, m: State, h: seq<Event>, es: seq<Event>, j: nat)
      returns (n': nat, t: State)
    requires Initial(c, s) && Steps(c, n, s, m)
    requires m.next > 0 && j <= |es| && LoggedSoFar(m, m.next - 1, h, es[..j])
    requires |BlocksOf(es)| <= MAXOPBLOCKS
    requires forall k :: 0 <= k < |es| ==> es[k].op == m.next - 1 && IsHome(c.g, |c.base|, es[k].bno)
    ensures Steps(c, n', s, t) && t.next == m.next && LoggedSoFar(t, m.next - 1, h, es)
    decreases |es| - j
  {
    hide Inv, LoggedSoFar, Steps, Next, BlocksOf, Initial;
    if j == |es| {
      assert es[..j] == es;
      n', t := n, m;
    } else {
      InitialInv(c, s);
      RunKeeps(c, n, s, m);
      BlocksMore(es, j);
      BlocksMore(es, j + 1);
      assert es[..j] + [es[j]] == es[..j + 1];
      var m1, m2 := OneMoreEvent(c, m, m.next - 1, h, es[..j], es[j]);
      Extend(c, n, s, m, Check(0), m1);
      Extend(c, n + 1, s, m1, Append(0, es[j].bno, es[j].data), m2);
      NextOf(m2, m.next - 1, h, es[..j + 1]);
      n', t := LogsAll(c, n + 2, s, m2, h, es, j + 1);
    }
  }

  lemma NextOf(t: State, id: nat, h: seq<Event>, es: seq<Event>)
    requires LoggedSoFar(t, id, h, es)
    ensures t.next == id + 1
  {
  }

  lemma EndsOne(c: Config, s: State, id: nat, h: seq<Event>, es: seq<Event>) returns (t: State)
    requires LoggedSoFar(s, id, h, es) && |BlocksOf(es)| <= MAXOPBLOCKS
    ensures Next(c, s, End(0), t) && t.mode == Committing(0) && t.hist == h + es && t.next == id + 1 && |t.lh| < NBUF
  {
    t := Ended(s);
    assert s.open[..0] + s.open[1..] == [];
  }

  /** A commit with a buffer to spare goes on to its end. */
  lemma {:induction false} CommitsAll(c: Config, n: nat, s: State, m: State) returns (n': nat, t: State)
    requires Initial(c, s) && Steps(c, n, s, m) && m.mode.Committing? && |m.lh| < NBUF
    ensures Steps(c, n', s, t) && Idle(t) && t.hist == m.hist && t.next == m.next
    decreases CommitLength(|m.lh|) - if m.mode.Committing? then m.mode.pc else 0
  {
    hide Inv, Steps, Commits, CommitFinishes, Initial;
    InitialInv(c, s);
    RunKeeps(c, n, s, m);
    NeverStuck(c, m);
    InCommit(c, m);
    if u :| CommitFinishes(m, u) {
      Extend(c, n, s, m, CommitDone, u);
      n', t := n + 1, u;
      FinishIs(m, u);
    } else {
      var u :| Commits(c, m, u);
      Extend(c, n, s, m, Commit, u);
      CommitIs(c, m, u);
      n', t := CommitsAll(c, n + 1, s, u);
    }
  }

  lemma InCommit(c: Config, m: State)
    requires Inv(c, m) && m.mode.Committing?
    ensures m.open == [] && m.mode.pc <= CommitLength(|m.lh|)
  {
  }

  lemma FinishIs(m: State, u: State)
    requires CommitFinishes(m, u) && m.open == []
    ensures Idle(u) && u.hist == m.hist && u.next == m.next
  {
  }

  lemma CommitIs(c: Config, m: State, u: State)
    requires Commits(c, m, u)
    ensures m.mode.pc < CommitLength(|m.lh|) && u.mode == Committing(m.mode.pc + 1)
    ensures u.lh == m.lh && u.hist == m.hist && u.next == m.next
  {
  }

  /** An operation that logs es, alone, and the commit that its end makes. */
  lemma DoesOne(c: Config, n: nat, s: State, m: State, es: seq<Event>) returns (n': nat, t: State)
    requires Initial(c, s) && Steps(c, n, s, m) && Idle(m) && |BlocksOf(es)| <= MAXOPBLOCKS
    requires forall k :: 0 <= k < |es| ==> es[k].op == m.next && IsHome(c.g, |c.base|, es[k].bno)
    ensures Steps(c, n', s, t) && Idle(t) && t.hist == m.hist + es && t.next == m.next + 1
  {
    hide LoggedSoFar, Steps, Next, BlocksOf, Initial, Idle;
    var m1 := BeginsOne(c, m);
    Extend(c, n, s, m, Begin, m1);
    NextOf(m1, m.next, m.hist, []);
    assert es[..0] == [];
    var n2, m2 := LogsAll(c, n + 1, s, m1, m.hist, es, 0);
    var m3 := EndsOne(c, m2, m.next, m.hist, es);
    Extend(c, n2, s, m2, End(0), m3);
    n', t := CommitsAll(c, n2 + 1, s, m3);
  }
}
