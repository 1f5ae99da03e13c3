/**
 What a crash leaves of file operations: their logged blocks as one operation's events in
 the log's history (fs.c, file.c and log.c together). Each chunk of a filewrite happens as
 a whole or not at all.
*/
module FsCrash {
  import opened Common
  import F = FsModel
  import opened FsLog
  import opened File
  import opened FileSystem
  import opened FsImage
  import opened LogFormat
  import opened LogCrash
  import Log

  // ---------- an operation changes only what it logs ----------

  lemma {:induction false} SameWord(a: seq<bool>, b: seq<bool>, lo: nat, n: nat)
    requires |a| == |b| && forall x: nat :: lo <= x < lo + n && x < |a| ==> a[x] == b[x]
    ensures BitsWord(a, lo, n) == BitsWord(b, lo, n)
  {
    if n > 0 { SameWord(a, b, lo, n - 1); }
  }

  lemma SameMap(sb: F.Super, a: seq<bool>, b: seq<bool>, k: nat, logged: set<nat>)
    requires |a| == |b| && sb.bmapstart + k !in logged
    requires forall x: nat :: x < |a| && b[x] != a[x] ==> BBlock(sb, x) in logged
    ensures MapWords(a, k) == MapWords(b, k)
  {
    forall j | 0 <= j < BWORDS ensures MapWords(a, k)[j] == MapWords(b, k)[j] {
      var lo := k * F.BPB + 32 * j;
      forall x: nat | lo <= x < lo + 32 && x < |a| ensures a[x] == b[x] {
        assert x / F.BPB == k;
      }
      SameWord(a, b, lo, 32);
    }
  }

  lemma SameInodes(sb: F.Super, d: seq<Dinode>, d': seq<Dinode>, k: nat, logged: set<nat>)
    requires |d'| == |d| && sb.inodestart + k !in logged
    requires forall i :: 0 <= i < |d| && d'[i] != d[i] ==> IBlock(sb, i) in logged
    ensures InodeWords(d, k) == InodeWords(d', k)
  {
    forall j | 0 <= j < BWORDS ensures InodeWord(d, k, j) == InodeWord(d', k, j) {
      var i := k * F.IPB + j / 16;
      assert i / F.IPB == k;
    }
  }

  lemma OnlyLogged(sb: F.Super, s: F.Fs, d: seq<Dinode>, t: F.Fs, d': seq<Dinode>, rest: Disk, logged: set<nat>, b: nat)
    requires OpDid(sb, s, d, t, d', logged) && b < |rest| == |s.blocks| && b !in logged
    ensures Image(sb, t, d', rest)[b] == Image(sb, s, d, rest)[b]
  {
    if b >= sb.meta {
    } else if b >= sb.bmapstart {
      SameMap(sb, s.bits, t.bits, b - sb.bmapstart, logged);
    } else if b >= sb.inodestart {
      SameInodes(sb, d, d', b - sb.inodestart, logged);
    }
  }

  // ---------- its events ----------

  /** Event j is the last of its block. */
  ghost predicate LastOf(es: seq<Event>, j: nat)
    requires j < |es|
  {
    forall k :: j < k < |es| ==> es[k].bno != es[j].bno
  }

  /** The events of operation op, which logged these blocks and left them as they are in to.
      A block may be logged more than once; the last time counts. */
  ghost predicate EventsOf(es: seq<Event>, op: nat, logged: set<nat>, to: Disk) {
    && (forall j :: 0 <= j < |es| ==> es[j].op == op && es[j].bno in logged)
    && (forall b :: b in logged ==> exists j: nat :: j < |es| && es[j].bno == b && LastOf(es, j))
    && (forall j: nat :: j < |es| && LastOf(es, j) && es[j].bno < |to| ==> es[j].data == to[es[j].bno])
  }

  lemma {:induction false} ReplayAt(base: Disk, es: seq<Event>, j: nat)
    requires j < |es| && LastOf(es, j) && es[j].bno < |base|
    ensures Replay(base, es)[es[j].bno] == es[j].data
    decreases |es|
  {
    var front := es[..|es| - 1];
    if j < |front| {
      assert LastOf(front, j);
      ReplayAt(base, front, j);
    }
  }

  lemma {:induction false} ReplayOther(base: Disk, es: seq<Event>, b: nat)
    requires b < |base| && forall j :: 0 <= j < |es| ==> es[j].bno != b
    ensures Replay(base, es)[b] == base[b]
    decreases |es|
  {
    if es != [] { ReplayOther(base, es[..|es| - 1], b); }
  }

  lemma {:induction false} ReplayBoth(base: Disk, a: seq<Event>, b: seq<Event>)
    ensures Replay(base, a + b) == Replay(Replay(base, a), b)
    decreases |b|
  {
    if b == [] {
      assert a + b == a;
    } else {
      ReplayBoth(base, a, b[..|b| - 1]);
      assert (a + b)[..|a + b| - 1] == a + b[..|b| - 1];
    }
  }

  /** Replaying an operation's events takes the one disk to the other. */
  lemma OpReplays(sb: F.Super, s: F.Fs, d: seq<Dinode>, t: F.Fs, d': seq<Dinode>, rest: Disk, logged: set<nat>,
                  es: seq<Event>, op: nat)
    requires OpDid(sb, s, d, t, d', logged) && |rest| == |s.blocks|
    requires EventsOf(es, op, logged, Image(sb, t, d', rest))
    ensures Replay(Image(sb, s, d, rest), es) == Image(sb, t, d', rest)
  {
    var from, to := Image(sb, s, d, rest), Image(sb, t, d', rest);
    hide Image, OpDid;
    forall b: nat | b < |rest| ensures Replay(from, es)[b] == to[b] {
      if b in logged {
        var j: nat :| j < |es| && es[j].bno == b && LastOf(es, j);
        ReplayAt(from, es, j);
      } else {
        ReplayOther(from, es, b);
        OnlyLogged(sb, s, d, t, d', rest, logged, b);
      }
    }
  }

  // ---------- a history of operations ----------

  /** An operation: its number in the log, what it logged, its events. */
  datatype FsOp = FsOp(id: nat, logged: set<nat>, es: seq<Event>)

  function AllEvents(ops: seq<FsOp>): seq<Event> {
    if ops == [] then [] else AllEvents(ops[..|ops| - 1]) + ops[|ops| - 1].es
  }

  /** The operations took the file system from each state to the next. */
  ghost predicate History(sb: F.Super, rest: Disk, states: seq<Version>, ops: seq<FsOp>) {
    && |states| == |ops| + 1
    && (forall k :: 0 <= k < |states| ==> |states[k].s.blocks| == |rest| && Sound(sb, states[k]))
    && (forall k :: 0 <= k < |ops| ==> OpAt(sb, rest, states, ops, k))
    && (forall j, k :: 0 <= j < k < |ops| ==> ops[j].id != ops[k].id)
  }

  ghost predicate OpAt(sb: F.Super, rest: Disk, states: seq<Version>, ops: seq<FsOp>, k: nat)
    requires k < |ops| && |states| == |ops| + 1 && |states[k + 1].s.blocks| == |rest|
  {
    var a, b := states[k], states[k + 1];
    && OpDid(sb, a.s, a.d, b.s, b.d, ops[k].logged)
    && EventsOf(ops[k].es, ops[k].id, ops[k].logged, Image(sb, b.s, b.d, rest))
  }

  ghost function ImageOf(sb: F.Super, rest: Disk, a: Version): Disk
    requires |a.s.blocks| == |rest|
  {
    Image(sb, a.s, a.d, rest)
  }

  lemma HistoryFront(sb: F.Super, rest: Disk, states: seq<Version>, ops: seq<FsOp>)
    requires History(sb, rest, states, ops) && ops != []
    ensures History(sb, rest, states[..|states| - 1], ops[..|ops| - 1])
  {
    var m := |ops| - 1;
    var a, o := states[..|states| - 1], ops[..m];
    forall k | 0 <= k < m ensures OpAt(sb, rest, a, o, k) {
      assert OpAt(sb, rest, states, ops, k);
    }
  }

  lemma {:induction false} HistoryReplays(sb: F.Super, rest: Disk, states: seq<Version>, ops: seq<FsOp>)
    requires History(sb, rest, states, ops)
    ensures Replay(ImageOf(sb, rest, states[0]), AllEvents(ops)) == ImageOf(sb, rest, states[|ops|])
    decreases |ops|
  {
    if ops != [] {
      var m := |ops| - 1;
      HistoryFront(sb, rest, states, ops);
      HistoryReplays(sb, rest, states[..|states| - 1], ops[..m]);
      assert OpAt(sb, rest, states, ops, m);
      OpReplays(sb, states[m].s, states[m].d, states[m + 1].s, states[m + 1].d, rest, ops[m].logged, ops[m].es,
          ops[m].id);
      hide Image, OpDid, EventsOf, Sound;
      ReplayBoth(ImageOf(sb, rest, states[0]), AllEvents(ops[..m]), ops[m].es);
    }
  }

  /** How many whole operations n events hold. */
  function Whole(ops: seq<FsOp>, n: nat): (k: nat)
    ensures k <= |ops|
  {
    if ops == [] || |AllEvents(ops)| <= n then |ops| else Whole(ops[..|ops| - 1], n)
  }

  /** A front of the history that cuts no operation in two is the events of the first few. */
  lemma {:induction false} WholeOps(sb: F.Super, rest: Disk, states: seq<Version>, ops: seq<FsOp>, n: nat)
    requires History(sb, rest, states, ops) && n <= |AllEvents(ops)| && Closed(AllEvents(ops), n)
    ensures AllEvents(ops)[..n] == AllEvents(ops[..Whole(ops, n)])
    decreases |ops|
  {
    var h := AllEvents(ops);
    if n == |h| {
      assert ops[..|ops|] == ops && h[..n] == h;
    } else {
      var m := |ops| - 1;
      var front := AllEvents(ops[..m]);
      assert n <= |front| by {
        assert OpAt(sb, rest, states, ops, m);
        if n > |front| { CutInTwo(front, ops[m].es, n); }
      }
      HistoryFront(sb, rest, states, ops);
      assert Closed(front, n) by {
        forall i, j | 0 <= i < n <= j < |front| ensures front[i].op != front[j].op {
          assert h[i] == front[i] && h[j] == front[j];
        }
      }
      WholeOps(sb, rest, states[..|states| - 1], ops[..m], n);
      assert h[..n] == front[..n] && ops[..m][..Whole(ops, n)] == ops[..Whole(ops, n)];
    }
  }

  lemma CutInTwo(front: seq<Event>, es: seq<Event>, n: nat)
    requires |front| < n < |front + es| && forall i, j :: 0 <= i < |es| && 0 <= j < |es| ==> es[i].op == es[j].op
    ensures !Closed(front + es, n)
  {
    assert (front + es)[n - 1] == es[n - 1 - |front|] && (front + es)[n] == es[n - |front|];
  }

  lemma HistoryTake(sb: F.Super, rest: Disk, states: seq<Version>, ops: seq<FsOp>, k: nat)
    requires History(sb, rest, states, ops) && k <= |ops|
    ensures History(sb, rest, states[..k + 1], ops[..k])
  {
    var a, o := states[..k + 1], ops[..k];
    forall j | 0 <= j < k ensures OpAt(sb, rest, a, o, j) {
      assert OpAt(sb, rest, states, ops, j);
    }
  }

  // ---------- the disk after recovery ----------

  /** The disk that all of recovery's writes leave. */
  ghost function Recovered(g: Geometry, d: Disk): Disk {
    if g.start < |d| && HeaderOk(d[g.start]) && EntriesOk(g, d, ReadHeader(d[g.start])) then
      Log.RecoverDisk(g, d, ReadHeader(d[g.start]), |ReadHeader(d[g.start])| + 1)
    else d
  }

  /** On disks as mkfs lays them out, with the log before the inodes. */
  predicate LogFirst(g: Geometry, sb: F.Super, n: nat) {
    g.start + g.size <= sb.inodestart && Layout(sb, n)
  }

  /** What is read off the recovered disk: the inodes, the bitmap and the bytes of all files. */
  lemma RecoveredReads(g: Geometry, d: Disk, sb: F.Super, rest: Disk, a: Version)
    requires |a.s.blocks| == |rest| && Recoverable(g, d, ImageOf(sb, rest, a))
    requires Sound(sb, a) && LogFirst(g, sb, |a.d|)
    ensures ReadsAs(Recovered(g, d), sb, a)
  {
    RecoveredHome(g, d, ImageOf(sb, rest, a));
    var e := Recovered(g, d);
    hide Sound, ReadsAs, Recovered, Recoverable;
    assert Carries(e, sb, a) by {
      forall b: nat | sb.inodestart <= b < |e| ensures e[b] == BlockOf(sb, a.s, a.d, e, b) {
        assert IsHome(g, |e|, b);
      }
    }
    ReadBack(e, sb, a);
  }

  lemma RecoveredHome(g: Geometry, d: Disk, r: Disk)
    requires Recoverable(g, d, r)
    ensures SameHome(g, Recovered(g, d), r)
  {
    Log.RecoveryYields(g, d, r, |ReadHeader(d[g.start])| + 1);
  }

  // ---------- file operations over the log ----------

  /** The file system's side of a run: the operations that have ended, the states between
      them, and what an operation that has not ended has logged so far. */
  datatype Book = Book(states: seq<Version>, ops: seq<FsOp>, part: seq<Event>)

  ghost predicate Tracks(c: Config, sb: F.Super, t: State, x: Book) {
    && History(sb, c.base, x.states, x.ops) && c.base == ImageOf(sb, c.base, x.states[0])
    && t.hist == AllEvents(x.ops) + x.part
    && (forall k, j :: 0 <= k < |x.ops| && 0 <= j < |t.open| ==> x.ops[k].id != t.open[j].id)
    && (forall k :: 0 <= k < |x.ops| ==> x.ops[k].id < t.next)
    && (forall k :: 0 <= k < |x.part| ==> SomeOpen(t.open, x.part[k].op))
  }

  ghost predicate SomeOpen(open: seq<Op>, id: nat) {
    exists j :: 0 <= j < |open| && open[j].id == id
  }

  /** Nothing of an open operation has passed a commit point. */
  lemma DoneIsWhole(c: Config, n: nat, s: State, t: State, sb: F.Super, x: Book)
    requires Initial(c, s) && Steps(c, n, s, t) && Tracks(c, sb, t, x)
    ensures t.done <= |AllEvents(x.ops)| && t.done <= |t.hist|
    ensures t.hist[..t.done] == AllEvents(x.ops[..Whole(x.ops, t.done)])
  {
    var all := AllEvents(x.ops);
    DoneFacts(c, n, s, t);
    if x.part != [] {
      var j :| 0 <= j < |t.open| && t.open[j].id == x.part[0].op;
      assert t.hist[|all|] == x.part[0];
    }
    forall i, j | 0 <= i < t.done <= j < |all| ensures all[i].op != all[j].op {
      assert all[i] == t.hist[i] && all[j] == t.hist[j];
    }
    WholeOps(sb, c.base, x.states, x.ops, t.done);
    assert t.hist[..t.done] == all[..t.done];
  }

  lemma DoneFacts(c: Config, n: nat, s: State, t: State)
    requires Initial(c, s) && Steps(c, n, s, t)
    ensures t.done <= |t.hist| && Closed(t.hist, t.done)
    ensures forall k, i :: 0 <= k < t.done && 0 <= i < |t.open| ==> t.hist[k].op != t.open[i].id
    ensures forall i, j :: 0 <= i < j < |t.open| ==> t.open[i].id != t.open[j].id
    ensures forall i :: 0 <= i < |t.open| ==> t.open[i].id < t.next
  {
    CrashAtomicity(c, n, s, t);
    InitialInv(c, s);
    RunKeeps(c, n, s, t);
  }

  /** Main theorem. In any state of any run, whatever an operation that has not ended may
      have logged, and whatever crashes there have been, the file system that recovery would
      yield is the one after some whole number of the operations that have ended. */
  lemma OpsAreAtomic(c: Config, n: nat, s: State, t: State, sb: F.Super, x: Book)
    requires Initial(c, s) && Steps(c, n, s, t) && Tracks(c, sb, t, x)
    ensures var k := Whole(x.ops, t.done);
            && k < |x.states| == |x.ops| + 1 && Sound(sb, x.states[k])
            && Recoverable(c.g, t.disk, ImageOf(sb, c.base, x.states[k]))
            && (LogFirst(c.g, sb, |x.states[k].d|) ==> ReadsAs(Recovered(c.g, t.disk), sb, x.states[k]))
  {
    CrashAtomicity(c, n, s, t);
    DoneIsWhole(c, n, s, t, sb, x);
    hide Initial, Steps, Recoverable, ViewIs, Image, Sound, LogFirst, ReadsAs, Recovered, EventsOf, OpDid, Whole;
    var k := Whole(x.ops, t.done);
    HistoryTake(sb, c.base, x.states, x.ops, k);
    HistoryReplays(sb, c.base, x.states[..k + 1], x.ops[..k]);
    if LogFirst(c.g, sb, |x.states[k].d|) { RecoveredReads(c.g, t.disk, sb, c.base, x.states[k]); }
  }

  // ---------- runs of file operations that overlap ----------

  /** The file system's side of a run: the states that operations have led to, in the order
      in which they ended, what open operations have logged so far, and which of the states
      has been committed. */
  datatype Notes = Notes(states: seq<Version>, part: seq<Event>, com: nat)

  /** The events of operation id, and those of the others. */
  function Mine(es: seq<Event>, id: nat): seq<Event> {
    if es == [] then []
    else
      var m := |es| - 1;
      Mine(es[..m], id) + if es[m].op == id then [es[m]] else []
  }

  function Others(es: seq<Event>, id: nat): seq<Event> {
    if es == [] then []
    else
      var m := |es| - 1;
      Others(es[..m], id) + if es[m].op == id then [] else [es[m]]
  }

  /** Different operations have logged different blocks. */
  ghost predicate Apart(es: seq<Event>) {
    forall j, k :: 0 <= j < |es| && 0 <= k < |es| && es[j].op != es[k].op ==> es[j].bno != es[k].bno
  }

  lemma {:induction false} OthersAre(es: seq<Event>, id: nat)
    ensures forall k :: 0 <= k < |Others(es, id)| ==> Others(es, id)[k] in es && Others(es, id)[k].op != id
  {
    if es != [] { OthersAre(es[..|es| - 1], id); }
  }

  /** One update can be made before those of other blocks. */
  lemma {:induction false} UpdateFirst(base: Disk, es: seq<Event>, e: Event)
    requires forall k :: 0 <= k < |es| ==> es[k].bno != e.bno
    ensures Replay(Replay(base, [e]), es) == Replay(Replay(base, es), [e])
  {
    if es != [] {
      UpdateFirst(base, es[..|es| - 1], e);
    }
  }

  /** An operation's events can be replayed before those of the others. */
  lemma {:induction false} MineFirst(base: Disk, es: seq<Event>, id: nat)
    requires Apart(es)
    ensures Replay(base, es) == Replay(Replay(base, Mine(es, id)), Others(es, id))
  {
    hide Apart, Mine, Others, Replay;
    if es == [] {
      NoSplit(id);
    } else {
      var front, e := es[..|es| - 1], es[|es| - 1];
      LastSplit(es, id);
      ApartFront(es);
      MineFirst(base, front, id);
      ReplayBoth(base, front, [e]);
      if e.op == id {
        OthersAre(front, id);
        ReplayBoth(base, Mine(front, id), [e]);
        UpdateFirst(Replay(base, Mine(front, id)), Others(front, id), e);
      } else {
        ReplayBoth(Replay(base, Mine(front, id)), Others(front, id), [e]);
      }
    }
  }

  lemma NoSplit(id: nat)
    ensures Mine([], id) == [] && Others([], id) == [] && forall base :: Replay(base, []) == base
  {
  }

  lemma LastSplit(es: seq<Event>, id: nat)
    requires es != []
    ensures var front, e := es[..|es| - 1], es[|es| - 1];
            && es == front + [e]
            && Mine(es, id) == (if e.op == id then Mine(front, id) + [e] else Mine(front, id))
            && Others(es, id) == (if e.op == id then Others(front, id) else Others(front, id) + [e])
  {
  }

  lemma ApartFront(es: seq<Event>)
    requires Apart(es) && es != []
    ensures var front, e := es[..|es| - 1], es[|es| - 1];
            Apart(front) && forall x :: x in front && x.op != e.op ==> x.bno != e.bno
  {
  }

  ghost predicate StatesOk(c: Config, sb: F.Super, states: seq<Version>) {
    && states != [] && (forall k :: 0 <= k < |states| ==> |states[k].s.blocks| == |c.base| && Sound(sb, states[k]))
    && c.base == ImageOf(sb, c.base, states[0])
  }

  /** The notes are right: the log's history is what the operations that have ended did, in
      that order, and then what open ones have logged; and what has passed a commit point is
      what the first of them did. */
  ghost predicate Noted(c: Config, sb: F.Super, t: State, x: Notes) {
    && StatesOk(c, sb, x.states) && x.com < |x.states| && t.done <= |t.hist|
    && Replay(c.base, t.hist) == Replay(ImageOf(sb, c.base, x.states[|x.states| - 1]), x.part)
    && Replay(c.base, t.hist[..t.done]) == ImageOf(sb, c.base, x.states[x.com])
    && Apart(x.part) && (forall k :: 0 <= k < |x.part| ==> SomeOpen(t.open, x.part[k].op))
  }

  /** What becomes of the notes in a step. An operation logs no block that another open one
      has logged. One that has logged takes the file system, when it ends, from the newest
      state to a. A crash loses what has not passed a commit point. */
  ghost predicate NotesAfter(c: Config, sb: F.Super, s: State, act: Step, x: Notes, a: Version, y: Notes) {
    match act
    case Append(i, b, data) =>
      && i < |s.open| && y == x.(part := x.part + [Event(s.open[i].id, b, data)])
      && (forall k :: 0 <= k < |x.part| && x.part[k].bno == b ==> x.part[k].op == s.open[i].id)
    case End(i) =>
      && i < |s.open|
      && if Mine(x.part, s.open[i].id) == [] then y == x
         else EndsIn(c, sb, x, s.open[i].id, s.open[i].blocks, a) &&
              y == Notes(x.states + [a], Others(x.part, s.open[i].id), x.com)
    case Commit =>
      y == if s.mode == Committing(|s.lh|) && |x.states| > 0 then x.(com := |x.states| - 1) else x
    case Crash => x.com < |x.states| && y == Notes(x.states[..x.com + 1], [], x.com)
    case _ => y == x
  }

  /** Operation id, which logged these blocks, takes the newest state to a. */
  ghost predicate EndsIn(c: Config, sb: F.Super, x: Notes, id: nat, logged: set<nat>, a: Version) {
    && x.states != [] && |a.s.blocks| == |c.base| && Sound(sb, a)
    && var z := x.states[|x.states| - 1];
       OpDid(sb, z.s, z.d, a.s, a.d, logged) && EventsOf(Mine(x.part, id), id, logged, Image(sb, a.s, a.d, c.base))
  }

  lemma StillOpen(open: seq<Op>, open': seq<Op>, part: seq<Event>)
    requires forall k :: 0 <= k < |part| ==> SomeOpen(open, part[k].op)
    requires forall j :: 0 <= j < |open| ==> SomeOpen(open', open[j].id)
    ensures forall k :: 0 <= k < |part| ==> SomeOpen(open', part[k].op)
  {
    forall k | 0 <= k < |part| ensures SomeOpen(open', part[k].op) {
      assert SomeOpen(open, part[k].op);
    }
  }

  lemma OpenAt(open: seq<Op>, j: nat)
    requires j < |open|
    ensures SomeOpen(open, open[j].id)
  {
  }

  /** A step that keeps what open operations there are, and may begin one. */
  lemma SameOpenNoted(c: Config, sb: F.Super, s: State, t: State, x: Notes)
    requires Noted(c, sb, s, x) && t.hist == s.hist && t.done == s.done && |t.open| >= |s.open|
    requires forall j :: 0 <= j < |s.open| ==> t.open[j].id == s.open[j].id
    ensures Noted(c, sb, t, x)
  {
    hide StatesOk, SomeOpen, ImageOf;
    forall j | 0 <= j < |s.open| ensures SomeOpen(t.open, s.open[j].id) { OpenAt(t.open, j); }
    StillOpen(s.open, t.open, x.part);
  }

  lemma AppendNoted(c: Config, sb: F.Super, s: State, i: nat, b: nat, data: Block, t: State, x: Notes)
    requires Noted(c, sb, s, x) && Appends(c, s, i, b, data, t)
    requires forall k :: 0 <= k < |x.part| && x.part[k].bno == b ==> x.part[k].op == s.open[i].id
    ensures Noted(c, sb, t, x.(part := x.part + [Event(s.open[i].id, b, data)]))
  {
    assert |x.states[|x.states| - 1].s.blocks| == |c.base|;
    hide StatesOk, SomeOpen, ImageOf, Replay;
    var e := Event(s.open[i].id, b, data);
    forall j | 0 <= j < |s.open| ensures SomeOpen(t.open, s.open[j].id) {
      assert t.open[j].id == s.open[j].id;
      OpenAt(t.open, j);
    }
    StillOpen(s.open, t.open, x.part);
    ReplayBoth(c.base, s.hist, [e]);
    ReplayBoth(ImageOf(sb, c.base, x.states[|x.states| - 1]), x.part, [e]);
    assert t.hist[..t.done] == s.hist[..s.done];
  }

  lemma EndNoted(c: Config, sb: F.Super, s: State, i: nat, t: State, x: Notes, a: Version, y: Notes)
    requires Noted(c, sb, s, x) && Ends(s, i, t) && NotesAfter(c, sb, s, End(i), x, a, y)
    requires forall i, j :: 0 <= i < j < |s.open| ==> s.open[i].id != s.open[j].id
    ensures Noted(c, sb, t, y)
  {
    var id, last := s.open[i].id, x.states[|x.states| - 1];
    MineFirst(ImageOf(sb, c.base, last), x.part, id);
    OthersAre(x.part, id);
    OthersOpen(s, i, t, x.part);
    if Mine(x.part, id) == [] {
      NoneMine(x.part, id);
    } else {
      OthersApart(x.part, id);
      hide Apart, SomeOpen, Replay;
      OpReplays(sb, last.s, last.d, a.s, a.d, c.base, s.open[i].blocks, Mine(x.part, id), id);
      StatesMore(c, sb, x.states, a);
      assert y.states[x.com] == x.states[x.com];
    }
  }

  lemma StatesMore(c: Config, sb: F.Super, states: seq<Version>, a: Version)
    requires StatesOk(c, sb, states) && |a.s.blocks| == |c.base| && Sound(sb, a)
    ensures StatesOk(c, sb, states + [a])
  {
    hide Sound, ImageOf;
  }

  lemma {:induction false} NoneMine(es: seq<Event>, id: nat)
    requires Mine(es, id) == []
    ensures Others(es, id) == es
  {
    hide Mine, Others;
    if es == [] {
      NoSplit(id);
    } else {
      LastSplit(es, id);
      NoneMine(es[..|es| - 1], id);
    }
  }

  lemma OthersApart(es: seq<Event>, id: nat)
    requires Apart(es)
    ensures Apart(Others(es, id))
  {
    OthersAre(es, id);
  }

  /** The others are still open. */
  lemma OthersOpen(s: State, i: nat, t: State, part: seq<Event>)
    requires Ends(s, i, t) && forall k :: 0 <= k < |part| ==> SomeOpen(s.open, part[k].op)
    ensures var q := Others(part, s.open[i].id); forall k :: 0 <= k < |q| ==> SomeOpen(t.open, q[k].op)
  {
    var q := Others(part, s.open[i].id);
    OthersAre(part, s.open[i].id);
    forall k | 0 <= k < |q| ensures SomeOpen(t.open, q[k].op) {
      var m :| 0 <= m < |part| && part[m] == q[k];
      var j :| 0 <= j < |s.open| && s.open[j].id == part[m].op;
      assert t.open[if j < i then j else j - 1] == s.open[j];
    }
  }

  function FirstOp(part: seq<Event>): nat {
    if part == [] then 0 else part[0].op
  }

  lemma NothingOpen(open: seq<Op>, part: seq<Event>)
    requires open == [] && forall k :: 0 <= k < |part| ==> SomeOpen(open, part[k].op)
    ensures part == []
  {
    assert !SomeOpen(open, FirstOp(part));
  }

  lemma CommitNoted(c: Config, sb: F.Super, s: State, t: State, x: Notes)
    requires Noted(c, sb, s, x) && Commits(c, s, t) && s.open == []
    ensures Noted(c, sb, t, if s.mode == Committing(|s.lh|) then x.(com := |x.states| - 1) else x)
  {
    hide StatesOk, ImageOf;
    NothingOpen(s.open, x.part);
    assert s.hist[..|s.hist|] == s.hist;
  }

  lemma CrashNoted(c: Config, sb: F.Super, s: State, t: State, x: Notes)
    requires Noted(c, sb, s, x) && Crashes(c, s, t)
    ensures Noted(c, sb, t, Notes(x.states[..x.com + 1], [], x.com))
  {
    hide Sound, ImageOf;
    assert t.hist[..t.done] == t.hist;
  }

  /** A step that does not log, end an operation, commit or crash. */
  lemma RestNoted(c: Config, sb: F.Super, s: State, act: Step, t: State, x: Notes)
    requires Noted(c, sb, s, x) && Next(c, s, act, t)
    requires act.Begin? || act.Check? || act.CommitDone? || act.Recover? || act.RecoverDone?
    ensures Noted(c, sb, t, x)
  {
    hide Noted;
    SameOpenNoted(c, sb, s, t, x);
  }

  /** Every step keeps the notes right. */
  lemma StepNoted(c: Config, n: nat, s0: State, s: State, act: Step, t: State, sb: F.Super, x: Notes, a: Version,
                  y: Notes)
    requires Initial(c, s0) && Steps(c, n, s0, s) && Next(c, s, act, t)
    requires Noted(c, sb, s, x) && NotesAfter(c, sb, s, act, x, a, y)
    ensures Noted(c, sb, t, y)
  {
    hide Noted, StatesOk, EndsIn, Steps, Initial, Mine, Others, Appends, Ends, Commits, Crashes, Closed;
    DoneFacts(c, n, s0, s);
    NobodyCommits(c, n, s0, s);
    if act.Append? {
      AppendNoted(c, sb, s, act.i, act.bno, act.data, t, x);
    } else if act.End? {
      EndNoted(c, sb, s, act.i, t, x, a, y);
    } else if act.Commit? {
      IsCommitting(c, s, t);
      SomeState(c, sb, s, x);
      CommitNoted(c, sb, s, t, x);
    } else if act.Crash? {
      CrashNoted(c, sb, s, t, x);
    } else {
      RestNoted(c, sb, s, act, t, x);
    }
  }

  lemma IsCommitting(c: Config, s: State, t: State)
    requires Commits(c, s, t)
    ensures s.mode.Committing?
  {
  }

  lemma SomeState(c: Config, sb: F.Super, t: State, x: Notes)
    requires Noted(c, sb, t, x)
    ensures |x.states| > 0
  {
  }

  lemma NobodyCommits(c: Config, n: nat, s: State, t: State)
    requires Initial(c, s) && Steps(c, n, s, t)
    ensures t.mode.Committing? ==> t.open == []
  {
    InitialInv(c, s);
    RunKeeps(c, n, s, t);
  }

  /** A run with its notes, from the log's first state on. */
  ghost predicate FsRun(c: Config, sb: F.Super, r: seq<State>, acts: seq<Step>, news: seq<Version>,
                        notes: seq<Notes>) {
    && |r| == |notes| == |acts| + 1 && |news| == |acts|
    && Initial(c, r[0]) && notes[0] == Notes(notes[0].states, [], 0) && |notes[0].states| == 1
    && StatesOk(c, sb, notes[0].states)
    && forall k: nat :: k < |acts| ==> RunStep(c, sb, r, acts, news, notes, k)
  }

  ghost predicate RunStep(c: Config, sb: F.Super, r: seq<State>, acts: seq<Step>, news: seq<Version>,
                          notes: seq<Notes>, k: nat)
    requires |r| == |notes| == |acts| + 1 && |news| == |acts| && k < |acts|
  {
    Next(c, r[k], acts[k], r[k + 1]) && NotesAfter(c, sb, r[k], acts[k], notes[k], news[k], notes[k + 1])
  }

  /** Main theorem. In every state of such a run, with whatever crashes in it and however its
      operations overlap, recovery would yield the right file system after some whole number
      of them, in the order in which they ended. */
  lemma RunIsAtomic(c: Config, sb: F.Super, r: seq<State>, acts: seq<Step>, news: seq<Version>, notes: seq<Notes>,
                    i: nat)
    requires FsRun(c, sb, r, acts, news, notes) && i < |r|
    ensures var x := notes[i];
            && x.com < |x.states| && |x.states[x.com].s.blocks| == |c.base| && Sound(sb, x.states[x.com])
            && Recoverable(c.g, r[i].disk, ImageOf(sb, c.base, x.states[x.com]))
            && (LogFirst(c.g, sb, |x.states[x.com].d|) ==> ReadsAs(Recovered(c.g, r[i].disk), sb, x.states[x.com]))
  {
    RunNoted(c, sb, r, acts, news, notes, i);
    hide Steps, Recoverable, FsRun, Sound, Initial, LogFirst, ReadsAs, Recovered, ImageOf;
    CrashAtomicity(c, i, r[0], r[i]);
    var x := notes[i];
    if LogFirst(c.g, sb, |x.states[x.com].d|) { RecoveredReads(c.g, r[i].disk, sb, c.base, x.states[x.com]); }
  }

  lemma {:induction false} RunNoted(c: Config, sb: F.Super, r: seq<State>, acts: seq<Step>, news: seq<Version>,
                                    notes: seq<Notes>, i: nat)
    requires FsRun(c, sb, r, acts, news, notes) && i < |r|
    ensures Initial(c, r[0]) && Steps(c, i, r[0], r[i]) && Noted(c, sb, r[i], notes[i])
    decreases i
  {
    hide Steps, StatesOk, ImageOf;
    if i == 0 {
      AtFirst(c, r[0]);
      FirstNoted(c, sb, r[0], notes[0]);
    } else {
      hide Noted, NotesAfter, Next, Initial;
      RunNoted(c, sb, r, acts, news, notes, i - 1);
      assert RunStep(c, sb, r, acts, news, notes, i - 1);
      Extend(c, i - 1, r[0], r[i - 1], acts[i - 1], r[i]);
      StepNoted(c, i - 1, r[0], r[i - 1], acts[i - 1], r[i], sb, notes[i - 1], news[i - 1], notes[i]);
    }
  }

  lemma FirstNoted(c: Config, sb: F.Super, t: State, x: Notes)
    requires Initial(c, t) && StatesOk(c, sb, x.states) && |x.states| == 1 && x == Notes(x.states, [], 0)
    ensures Noted(c, sb, t, x)
  {
    hide Sound, Image;
  }

  /** One more operation. */
  lemma HistoryMore(sb: F.Super, rest: Disk, states: seq<Version>, ops: seq<FsOp>, a: Version, o: FsOp)
    requires History(sb, rest, states, ops) && |a.s.blocks| == |rest| && Sound(sb, a)
    requires OpAt(sb, rest, states + [a], ops + [o], |ops|) && forall k :: 0 <= k < |ops| ==> ops[k].id != o.id
    ensures History(sb, rest, states + [a], ops + [o]) && AllEvents(ops + [o]) == AllEvents(ops) + o.es
  {
    hide OpDid, EventsOf, Image, Sound;
    assert (ops + [o])[..|ops|] == ops;
    forall k | 0 <= k < |ops + [o]| ensures OpAt(sb, rest, states + [a], ops + [o], k) {
      if k < |ops| { assert OpAt(sb, rest, states, ops, k); }
    }
  }

  // ---------- and there are such events ----------

  lemma OneEventMore(logged: set<nat>, op: nat, to: Disk, front: seq<Event>, b: nat)
    requires b in logged && b < |to| && EventsOf(front, op, logged - {b}, to)
    ensures EventsOf(front + [Event(op, b, to[b])], op, logged, to)
  {
    var es := front + [Event(op, b, to[b])];
    assert LastOf(es, |front|);
    forall x | x in logged ensures exists j: nat :: j < |es| && es[j].bno == x && LastOf(es, j) {
      if x == b {
        assert es[|front|].bno == x;
      } else {
        assert x in logged - {b};
        var j: nat :| j < |front| && front[j].bno == x && LastOf(front, j);
        assert LastOf(es, j) && es[j].bno == x;
      }
    }
    forall j: nat | j < |es| && LastOf(es, j) && es[j].bno < |to| ensures es[j].data == to[es[j].bno] {
      if j < |front| {
        assert LastOf(front, j) by {
          forall k | j < k < |front| ensures front[k].bno != front[j].bno { assert es[k] == front[k]; }
        }
      }
    }
  }

  /** One event for each block that was logged: no more than log_write reserves. */
  lemma {:induction false} EventsExist(logged: set<nat>, op: nat, to: Disk) returns (es: seq<Event>)
    requires forall b :: b in logged ==> b < |to|
    ensures EventsOf(es, op, logged, to) && |es| == |logged|
    decreases |logged|
  {
    if b :| b in logged {
      var front := EventsExist(logged - {b}, op, to);
      es := front + [Event(op, b, to[b])];
      OneEventMore(logged, op, to, front, b);
    } else {
      es := [];
    }
  }

  /** Any operations within their reservations are those of some run: one after the other,
      each committed at its end. */
  lemma {:induction false} RunExists(c: Config, s: State, sb: F.Super, states: seq<Version>, ops: seq<FsOp>)
      returns (n: nat, t: State)
    requires Initial(c, s) && History(sb, c.base, states, ops) && c.base == ImageOf(sb, c.base, states[0])
    requires forall k :: 0 <= k < |ops| ==> ops[k].id == k && Reserved(c, ops[k].logged)
    ensures Steps(c, n, s, t) && Idle(t) && t.next == |ops| && Tracks(c, sb, t, Book(states, ops, []))
    decreases |ops|
  {
    hide Steps, Initial, Tracks, History, ImageOf, Image, OpAt, EventsOf, Reserved, Idle;
    if ops == [] {
      n, t := 0, s;
      AtFirst(c, s);
      DoneAll(c, sb, t, states, ops);
    } else {
      var m := |ops| - 1;
      LastOp(sb, c.base, states, ops);
      var n0, u := RunExists(c, s, sb, states[..|states| - 1], ops[..m]);
      TracksHist(c, sb, u, states[..|states| - 1], ops[..m]);
      EventsReserved(c, ops[m], ImageOf(sb, c.base, states[m + 1]));
      n, t := DoesOne(c, n0, s, u, ops[m].es);
      DoneAll(c, sb, t, states, ops);
    }
  }

  lemma LastOp(sb: F.Super, rest: Disk, states: seq<Version>, ops: seq<FsOp>)
    requires History(sb, rest, states, ops) && ops != []
    ensures var m := |ops| - 1;
            && |states| == m + 2 && History(sb, rest, states[..m + 1], ops[..m]) && states[..m + 1][0] == states[0]
            && |states[m + 1].s.blocks| == |states[0].s.blocks| == |rest|
            && EventsOf(ops[m].es, ops[m].id, ops[m].logged, ImageOf(sb, rest, states[m + 1]))
  {
    HistoryFront(sb, rest, states, ops);
    assert OpAt(sb, rest, states, ops, |ops| - 1);
  }

  lemma TracksHist(c: Config, sb: F.Super, t: State, states: seq<Version>, ops: seq<FsOp>)
    requires Tracks(c, sb, t, Book(states, ops, []))
    ensures t.hist == AllEvents(ops)
  {
  }

  lemma DoneAll(c: Config, sb: F.Super, t: State, states: seq<Version>, ops: seq<FsOp>)
    requires History(sb, c.base, states, ops) && c.base == ImageOf(sb, c.base, states[0])
    requires t.hist == AllEvents(ops) && Idle(t) && t.next == |ops| && forall k :: 0 <= k < |ops| ==> ops[k].id == k
    ensures Tracks(c, sb, t, Book(states, ops, []))
  {
    hide Image, OpDid, Sound;
  }

  lemma AtFirst(c: Config, s: State)
    requires Initial(c, s)
    ensures Steps(c, 0, s, s) && Idle(s) && s.next == 0 && s.hist == []
  {
  }

  /** As many blocks as one operation may log, and none of them in the log. */
  ghost predicate Reserved(c: Config, logged: set<nat>) {
    |logged| <= MAXOPBLOCKS && forall b :: b in logged ==> IsHome(c.g, |c.base|, b)
  }

  lemma EventsReserved(c: Config, o: FsOp, to: Disk)
    requires EventsOf(o.es, o.id, o.logged, to) && Reserved(c, o.logged)
    ensures |BlocksOf(o.es)| <= MAXOPBLOCKS
    ensures forall k :: 0 <= k < |o.es| ==> o.es[k].op == o.id && IsHome(c.g, |c.base|, o.es[k].bno)
  {
    SubsetSize(BlocksOf(o.es), o.logged);
  }

  /** The chunks of a filewrite, as File.OpenFile.Write keeps them, are such operations: with
      one event for each block that they log they make a history. */
  lemma {:induction false} ChunksAreOps(sb: F.Super, rest: Disk, first: Version, q: seq<Version>, logs: seq<set<nat>>)
      returns (ops: seq<FsOp>)
    requires GoodOps(sb, first, q, logs) && Sound(sb, first) && |rest| == sb.size
    requires forall k: nat, b :: k < |logs| && b in logs[k] ==> b < sb.size
    ensures |ops| == |logs| && forall k :: 0 <= k < |ops| ==> ops[k].id == k && ops[k].logged == logs[k]
    ensures History(sb, rest, [first] + q, ops)
    decreases |q|
  {
    hide Image, OpDid, EventsOf, Sound, History, OpAt, GoodOps, GoodOp, Newest;
    GoodMany(sb, first, q, logs);
    SizeIs(sb, first);
    if q == [] {
      ops := [];
      NoOpsYet(sb, rest, first);
      assert [first] + q == [first];
    } else {
      var m := |q| - 1;
      FewerGood(sb, first, q, logs);
      var before := ChunksAreOps(sb, rest, first, q[..m], logs[..m]);
      SizeIs(sb, q[m]);
      var es := EventsExist(logs[m], m, Image(sb, q[m].s, q[m].d, rest));
      var o := FsOp(m, logs[m], es);
      LastIsOp(sb, rest, first, q, logs, before, o);
      HistoryMore(sb, rest, [first] + q[..m], before, q[m], o);
      ops := before + [o];
      assert [first] + q[..m] + [q[m]] == [first] + q;
    }
  }

  lemma GoodMany(sb: F.Super, first: Version, q: seq<Version>, logs: seq<set<nat>>)
    requires GoodOps(sb, first, q, logs)
    ensures |q| == |logs|
  {
  }

  lemma NoOpsYet(sb: F.Super, rest: Disk, first: Version)
    requires Sound(sb, first) && |first.s.blocks| == |rest|
    ensures History(sb, rest, [first], [])
  {
    hide Sound;
  }

  lemma SizeIs(sb: F.Super, a: Version)
    requires Sound(sb, a)
    ensures |a.s.blocks| == sb.size
  {
  }

  lemma FewerGood(sb: F.Super, first: Version, q: seq<Version>, logs: seq<set<nat>>)
    requires GoodOps(sb, first, q, logs) && q != []
    ensures var m := |q| - 1;
            && GoodOps(sb, first, q[..m], logs[..m]) && GoodOp(sb, Newest(first, q[..m]), q[m], logs[m])
            && Sound(sb, q[m]) && OpDid(sb, Newest(first, q[..m]).s, Newest(first, q[..m]).d, q[m].s, q[m].d, logs[m])
  {
    var m := |q| - 1;
    assert GoodOp(sb, Newest(first, q[..m]), q[m], logs[m]);
    hide GoodOp;
    forall k: nat | k < m ensures GoodOp(sb, Newest(first, q[..m][..k]), q[..m][k], logs[..m][k]) {
      assert q[..m][..k] == q[..k];
      assert GoodOp(sb, Newest(first, q[..k]), q[k], logs[k]);
    }
  }

  lemma LastIsOp(sb: F.Super, rest: Disk, first: Version, q: seq<Version>, logs: seq<set<nat>>, before: seq<FsOp>,
                 o: FsOp)
    requires |q| == |logs| == |before| + 1 && |q[|q| - 1].s.blocks| == |rest|
    requires var m, a := |q| - 1, Newest(first, q[..|q| - 1]);
             && OpDid(sb, a.s, a.d, q[m].s, q[m].d, logs[m]) && o.logged == logs[m]
             && EventsOf(o.es, o.id, o.logged, Image(sb, q[m].s, q[m].d, rest))
    ensures OpAt(sb, rest, [first] + q[..|q| - 1] + [q[|q| - 1]], before + [o], |before|)
  {
    hide Image, OpDid, EventsOf;
  }
}
