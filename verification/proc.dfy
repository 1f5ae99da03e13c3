/**
 The process table (proc.c): fork, exit, wait, sleep, wakeup and kill, as the critical
 sections they run under ptable.lock. Between two of these methods the lock is free, so
 what Valid says holds whenever it is. Processes are slots of the table.
*/
module ProcTable {
  import opened Common

  /** initproc's slot. */
  const INIT: nat := 0

  datatype ProcState = UNUSED | EMBRYO | SLEEPING | RUNNABLE | RUNNING | ZOMBIE

  datatype Parent = NoParent | ChildOf(p: nat)

  /** wait sleeps on the process's own address; every other channel is something else. */
  datatype Chan = NoChan | OnProc(p: nat) | OnOther(c: nat)

  datatype Proc = Proc(state: ProcState, pid: nat, parent: Parent, chan: Chan, killed: bool)

  type Table = seq<Proc>

  predicate Live(s: ProcState) {
    s.SLEEPING? || s.RUNNABLE? || s.RUNNING?
  }

  // ---------- the invariant ----------

  /** A parent is there, and has not exited. forking gives each process's child while
      its fork is under way: the child has a slot, but not yet a parent or only just. */
  ghost predicate TreeInv(t: Table, forking: map<nat, nat>) {
    && |t| == NPROC && Live(t[INIT].state)
    && (forall i :: 0 <= i < NPROC ==> ParentOk(t, forking, i))
    && (forall p :: p in forking ==> p < NPROC && Live(t[p].state) && forking[p] < NPROC && t[forking[p]].state.EMBRYO?)
    && (forall p, q :: p in forking && q in forking && forking[p] == forking[q] ==> p == q)
  }

  ghost predicate ParentOk(t: Table, forking: map<nat, nat>, i: nat)
    requires |t| == NPROC && i < NPROC
  {
    match t[i].state
    case UNUSED => t[i].parent == NoParent
    case EMBRYO =>
      t[i].parent == NoParent || (t[i].parent.p in forking && forking[t[i].parent.p] == i)
    case _ =>
      i == INIT || (t[i].parent.ChildOf? && t[i].parent.p < NPROC && t[i].parent.p != i && Live(t[t[i].parent.p].state))
  }

  /** Nobody sleeps in wait while it has a zombie to collect. */
  ghost predicate WaitInv(t: Table) {
    forall i, j ::
      0 <= i < |t| && 0 <= j < |t| && t[i].state.SLEEPING? && t[i].chan == OnProc(i) && t[j].state.ZOMBIE? ==>
        t[j].parent != ChildOf(i)
  }

  /** Pids in use are new and different, and none has been returned by wait. */
  ghost predicate PidInv(t: Table, nextpid: nat, reaped: set<nat>) {
    && (forall i :: 0 <= i < |t| && !t[i].state.UNUSED? ==> t[i].pid < nextpid && t[i].pid !in reaped)
    && (forall i, j :: 0 <= i < j < |t| && !t[i].state.UNUSED? && !t[j].state.UNUSED? ==> t[i].pid != t[j].pid)
    && (forall x :: x in reaped ==> x < nextpid)
  }

  // ---------- what the critical sections do to the table ----------

  /** wakeup1. */
  function Woken(t: Table, c: Chan): (r: Table)
    ensures |r| == |t|
    ensures forall i :: 0 <= i < |t| ==>
            r[i] == if t[i].state.SLEEPING? && t[i].chan == c then t[i].(state := RUNNABLE) else t[i]
  {
    seq(|t|, i requires 0 <= i < |t| =>
      if t[i].state.SLEEPING? && t[i].chan == c then t[i].(state := RUNNABLE) else t[i])
  }

  /** exit's loop over the first k slots. */
  function Passed(t: Table, cur: nat, k: nat): (r: Table)
    requires k <= |t|
    ensures |r| == |t|
    decreases k
  {
    if k == 0 then t
    else
      var r := Passed(t, cur, k - 1);
      if r[k - 1].parent != ChildOf(cur) then r
      else
        var s := r[k - 1 := r[k - 1].(parent := ChildOf(INIT))];
        if s[k - 1].state.ZOMBIE? then Woken(s, OnProc(INIT)) else s
  }

  function Exited(t: Table, cur: nat): Table
    requires cur < |t| && t[cur].parent.ChildOf?
  {
    var r := Passed(Woken(t, OnProc(t[cur].parent.p)), cur, |t|);
    r[cur := r[cur].(state := ZOMBIE)]
  }

  /** Slot by slot, what exit's loop leaves. */
  lemma {:induction false} PassedAt(t: Table, cur: nat, k: nat, i: nat)
    requires k <= |t| && i < |t|
    ensures var r := Passed(t, cur, k);
            && r[i].parent == (if i < k && t[i].parent == ChildOf(cur) then ChildOf(INIT) else t[i].parent)
            && r[i].pid == t[i].pid && r[i].chan == t[i].chan && r[i].killed == t[i].killed
            && (r[i].state == t[i].state
                || (r[i].state == RUNNABLE && t[i].state.SLEEPING? && t[i].chan == OnProc(INIT)))
  {
    if k > 0 { PassedAt(t, cur, k - 1, i); }
  }

  /** Init is awake if it has been given a zombie. */
  lemma {:induction false} PassedWakes(t: Table, cur: nat, k: nat, j: nat)
    requires k <= |t| && j < k && t[j].parent == ChildOf(cur) && t[j].state.ZOMBIE? && INIT < |t|
    ensures var r := Passed(t, cur, k); r[INIT].state.SLEEPING? ==> r[INIT].chan != OnProc(INIT)
  {
    PassedAt(t, cur, k - 1, j);
    if j < k - 1 { PassedWakes(t, cur, k - 1, j); }
  }

  /** Somebody's zombie child is among the first k slots. */
  ghost predicate HasZombie(t: Table, cur: nat, k: nat) {
    exists j :: 0 <= j < k && j < |t| && t[j].parent == ChildOf(cur) && t[j].state.ZOMBIE?
  }

  /** Exactly who is awake after exit's loop. */
  lemma {:induction false} PassedState(t: Table, cur: nat, k: nat, i: nat)
    requires k <= |t| && i < |t|
    ensures Passed(t, cur, k)[i].state ==
              if t[i].state.SLEEPING? && t[i].chan == OnProc(INIT) && HasZombie(t, cur, k) then RUNNABLE else t[i].state
  {
    if k > 0 {
      PassedState(t, cur, k - 1, i);
      PassedState(t, cur, k - 1, k - 1);
      PassedAt(t, cur, k - 1, i);
      PassedAt(t, cur, k - 1, k - 1);
      assert HasZombie(t, cur, k) <==>
             HasZombie(t, cur, k - 1) || (t[k - 1].parent == ChildOf(cur) && t[k - 1].state.ZOMBIE?);
    }
  }

  /** What exit does to each slot: the caller is a zombie, its children are init's, and just
      the parent asleep in wait is awake, and init asleep in wait if a child was a zombie. */
  lemma ExitedAt(t: Table, cur: nat, i: nat)
    requires cur < |t| && i < |t| && t[cur].parent.ChildOf?
    ensures var woken := t[i].state.SLEEPING?
                         && (t[i].chan == OnProc(t[cur].parent.p)
                             || (t[i].chan == OnProc(INIT) && HasZombie(t, cur, |t|)));
            Exited(t, cur)[i] == Proc(if i == cur then ZOMBIE else if woken then RUNNABLE else t[i].state, t[i].pid,
                                      if t[i].parent == ChildOf(cur) then ChildOf(INIT) else t[i].parent, t[i].chan,
                                      t[i].killed)
  {
    var u := Woken(t, OnProc(t[cur].parent.p));
    PassedAt(u, cur, |t|, i);
    PassedState(u, cur, |t|, i);
    assert HasZombie(u, cur, |t|) <==> HasZombie(t, cur, |t|) by {
      assert forall j :: 0 <= j < |t| ==> u[j].parent == t[j].parent && (u[j].state.ZOMBIE? <==> t[j].state.ZOMBIE?);
    }
  }

  lemma ExitKeepsTree(t: Table, forking: map<nat, nat>, cur: nat)
    requires TreeInv(t, forking) && cur < NPROC && cur != INIT && t[cur].state.RUNNING? && cur !in forking
    ensures t[cur].parent.ChildOf? && TreeInv(Exited(t, cur), forking)
  {
    assert ParentOk(t, forking, cur);
    var u := Woken(t, OnProc(t[cur].parent.p));
    var r := Exited(t, cur);
    PassedAt(u, cur, NPROC, INIT);
    forall i | 0 <= i < NPROC
      ensures ParentOk(r, forking, i)
      ensures i != cur ==> (Live(r[i].state) <==> Live(t[i].state)) && (r[i].state.EMBRYO? <==> t[i].state.EMBRYO?)
    {
      PassedAt(u, cur, NPROC, i);
      assert ParentOk(t, forking, i);
      if t[i].parent.ChildOf? && t[i].parent.p < NPROC { PassedAt(u, cur, NPROC, t[i].parent.p); }
    }
  }

  lemma ExitKeepsWait(t: Table, forking: map<nat, nat>, cur: nat)
    requires TreeInv(t, forking) && WaitInv(t) && cur < NPROC && cur != INIT && t[cur].state.RUNNING?
    ensures t[cur].parent.ChildOf? && WaitInv(Exited(t, cur))
  {
    assert ParentOk(t, forking, cur);
    forall i, j | 0 <= i < NPROC && 0 <= j < NPROC && Exited(t, cur)[j].state.ZOMBIE?
      ensures var r := Exited(t, cur); r[i].state.SLEEPING? && r[i].chan == OnProc(i) ==> r[j].parent != ChildOf(i)
    {
      ExitKeepsWaitAt(t, forking, cur, i, j);
    }
  }

  lemma ExitKeepsWaitAt(t: Table, forking: map<nat, nat>, cur: nat, i: nat, j: nat)
    requires TreeInv(t, forking) && WaitInv(t) && cur < NPROC && cur != INIT && t[cur].state.RUNNING?
    requires t[cur].parent.ChildOf? && i < NPROC && j < NPROC && Exited(t, cur)[j].state.ZOMBIE?
    ensures var r := Exited(t, cur); r[i].state.SLEEPING? && r[i].chan == OnProc(i) ==> r[j].parent != ChildOf(i)
  {
    assert ParentOk(t, forking, cur);
    var u := Woken(t, OnProc(t[cur].parent.p));
    PassedAt(u, cur, NPROC, i);
    PassedAt(u, cur, NPROC, j);
    if j != cur && t[j].parent == ChildOf(cur) {
      PassedWakes(u, cur, NPROC, j);
    }
  }

  lemma ExitKeepsPids(t: Table, cur: nat, nextpid: nat, reaped: set<nat>)
    requires PidInv(t, nextpid, reaped) && cur < |t| && t[cur].parent.ChildOf? && !t[cur].state.UNUSED?
    ensures PidInv(Exited(t, cur), nextpid, reaped)
  {
    var u, r := Woken(t, OnProc(t[cur].parent.p)), Exited(t, cur);
    forall i | 0 <= i < |t| ensures r[i].pid == t[i].pid && (r[i].state.UNUSED? <==> t[i].state.UNUSED?) {
      PassedAt(u, cur, |t|, i);
    }
  }

  // ---------- one slot changed ----------

  ghost predicate AllInv(t: Table, forking: map<nat, nat>, nextpid: nat, reaped: set<nat>) {
    TreeInv(t, forking) && WaitInv(t) && PidInv(t, nextpid, reaped)
  }

  /** A process changes state among the live ones; it may sleep in wait only if it has no
      zombie to collect. */
  lemma LiveChange(t: Table, forking: map<nat, nat>, nextpid: nat, reaped: set<nat>, i: nat, p: Proc)
    requires AllInv(t, forking, nextpid, reaped) && i < NPROC && Live(t[i].state) && Live(p.state)
    requires p.pid == t[i].pid && p.parent == t[i].parent
    requires p.state.SLEEPING? && p.chan == OnProc(i) ==>
               forall j :: 0 <= j < NPROC && t[j].state.ZOMBIE? ==> t[j].parent != ChildOf(i)
    ensures AllInv(t[i := p], forking, nextpid, reaped)
  {
    var t' := t[i := p];
    forall k | 0 <= k < NPROC ensures ParentOk(t', forking, k) {
      assert ParentOk(t, forking, k);
    }
  }

  lemma WokenKeeps(t: Table, forking: map<nat, nat>, nextpid: nat, reaped: set<nat>, c: Chan)
    requires AllInv(t, forking, nextpid, reaped)
    ensures AllInv(Woken(t, c), forking, nextpid, reaped)
  {
    forall k | 0 <= k < NPROC ensures ParentOk(Woken(t, c), forking, k) {
      assert ParentOk(t, forking, k);
    }
  }

  /** allocproc's slot. */
  lemma EmbryoKeeps(t: Table, forking: map<nat, nat>, nextpid: nat, reaped: set<nat>, i: nat, cur: nat)
    requires AllInv(t, forking, nextpid, reaped) && i < NPROC && t[i].state.UNUSED?
    requires cur < NPROC && Live(t[cur].state) && cur !in forking
    ensures AllInv(t[i := t[i].(state := EMBRYO, pid := nextpid)], forking[cur := i], nextpid + 1, reaped)
  {
    var t', f' := t[i := t[i].(state := EMBRYO, pid := nextpid)], forking[cur := i];
    forall k | 0 <= k < NPROC ensures ParentOk(t', f', k) {
      assert ParentOk(t, forking, k);
    }
  }

  lemma EmbryoGone(t: Table, forking: map<nat, nat>, nextpid: nat, reaped: set<nat>, cur: nat)
    requires AllInv(t, forking, nextpid, reaped) && cur in forking && t[forking[cur]].parent == NoParent
    ensures AllInv(t[forking[cur] := t[forking[cur]].(state := UNUSED)], forking - {cur}, nextpid, reaped)
  {
    var i := forking[cur];
    var t', f' := t[i := t[i].(state := UNUSED)], forking - {cur};
    forall k | 0 <= k < NPROC ensures ParentOk(t', f', k) {
      assert ParentOk(t, forking, k);
    }
  }

  lemma EmbryoNamed(t: Table, forking: map<nat, nat>, nextpid: nat, reaped: set<nat>, cur: nat)
    requires AllInv(t, forking, nextpid, reaped) && cur in forking
    ensures AllInv(t[forking[cur] := t[forking[cur]].(parent := ChildOf(cur))], forking, nextpid, reaped)
  {
    var i := forking[cur];
    var t' := t[i := t[i].(parent := ChildOf(cur))];
    forall k | 0 <= k < NPROC ensures ParentOk(t', forking, k) {
      assert ParentOk(t, forking, k);
    }
  }

  lemma EmbryoBorn(t: Table, forking: map<nat, nat>, nextpid: nat, reaped: set<nat>, cur: nat)
    requires AllInv(t, forking, nextpid, reaped) && cur in forking && t[forking[cur]].parent == ChildOf(cur)
    ensures AllInv(t[forking[cur] := t[forking[cur]].(state := RUNNABLE)], forking - {cur}, nextpid, reaped)
  {
    var i := forking[cur];
    var t', f' := t[i := t[i].(state := RUNNABLE)], forking - {cur};
    forall k | 0 <= k < NPROC ensures ParentOk(t', f', k) {
      assert ParentOk(t, forking, k);
    }
  }

  /** wait's collected zombie: nobody has it as a parent. */
  function Collected(p: Proc): Proc {
    p.(state := UNUSED, pid := 0, parent := NoParent, killed := false)
  }

  /** Slot i was a zombie child of cur with this pid, and is free now. */
  ghost predicate CollectedChild(t: Table, t': Table, cur: nat, i: nat, pid: nat)
    requires i < |t|
  {
    && t[i].state.ZOMBIE? && t[i].parent == ChildOf(cur) && t[i].pid == pid
    && (forall k :: 0 <= k < i ==> t[k].parent != ChildOf(cur) || !t[k].state.ZOMBIE?)
    && t' == t[i := Proc(UNUSED, 0, NoParent, t[i].chan, false)]
  }

  lemma CollectKeeps(t: Table, forking: map<nat, nat>, nextpid: nat, reaped: set<nat>, i: nat)
    requires AllInv(t, forking, nextpid, reaped) && i < NPROC && i != INIT && t[i].state.ZOMBIE?
    ensures AllInv(t[i := Collected(t[i])], forking, nextpid, reaped + {t[i].pid}) && t[i].pid !in reaped
  {
    var t' := t[i := Collected(t[i])];
    forall k | 0 <= k < NPROC ensures ParentOk(t', forking, k) {
      assert ParentOk(t, forking, k);
    }
  }

  lemma ExitKeeps(t: Table, forking: map<nat, nat>, nextpid: nat, reaped: set<nat>, cur: nat)
    requires AllInv(t, forking, nextpid, reaped) && cur < NPROC && cur != INIT && t[cur].state.RUNNING?
             && cur !in forking
    ensures t[cur].parent.ChildOf? && AllInv(Exited(t, cur), forking, nextpid, reaped)
  {
    ExitKeepsTree(t, forking, cur);
    ExitKeepsWait(t, forking, cur);
    ExitKeepsPids(t, cur, nextpid, reaped);
  }

  function Killed(p: Proc): Proc {
    p.(killed := true, state := if p.state.SLEEPING? then RUNNABLE else p.state)
  }

  /** Slot i is the first with this pid, and has been killed. */
  ghost predicate KilledFirst(t: Table, t': Table, pid: nat, i: nat)
    requires i < |t|
  {
    && t[i].pid == pid && (forall k :: 0 <= k < i ==> t[k].pid != pid)
    && t' == t[i := t[i].(killed := true, state := if t[i].state.SLEEPING? then RUNNABLE else t[i].state)]
  }

  lemma KillKeeps(t: Table, forking: map<nat, nat>, nextpid: nat, reaped: set<nat>, i: nat)
    requires AllInv(t, forking, nextpid, reaped) && i < NPROC
    ensures AllInv(t[i := Killed(t[i])], forking, nextpid, reaped)
  {
    var t' := t[i := Killed(t[i])];
    forall k | 0 <= k < NPROC ensures ParentOk(t', forking, k) {
      assert ParentOk(t, forking, k);
    }
  }

  /** What some process, or the scheduler, does next under the lock. */
  datatype Event =
    | Alloc(cur: nat)
    | Fail(cur: nat)
    | Name(cur: nat)
    | Born(cur: nat)
    | Exits(cur: nat)
    | Waits(cur: nat)
    | Sleeps(cur: nat, c: nat)
    | Wakes(c: nat)
    | Runs(i: nat)
    | Yields(cur: nat)
    | Kills(pid: nat)

  predicate RunsNow(t: Table, cur: nat) {
    cur < |t| && t[cur].state.RUNNING?
  }

  ghost predicate FirstFree(t: Table, i: nat) {
    i < |t| && t[i].state.UNUSED? && forall k :: 0 <= k < i ==> !t[k].state.UNUSED?
  }

  /** What an event but a wait does to the table, to who is in fork, and to the next pid.
      One that its process is not at does nothing. */
  ghost predicate Follows(e: Event, t: Table, f: map<nat, nat>, n: nat, t': Table, f': map<nat, nat>, n': nat) {
    match e
    case Alloc(cur) =>
      if RunsNow(t, cur) && cur !in f && exists i :: 0 <= i < |t| && t[i].state.UNUSED? then
        exists i: nat ::
          FirstFree(t, i) && t' == t[i := t[i].(state := EMBRYO, pid := n)] && f' == f[cur := i] && n' == n + 1
      else t' == t && f' == f && n' == n
    case Fail(cur) =>
      && n' == n
      && if cur in f && f[cur] < |t| && t[f[cur]].parent == NoParent
         then t' == t[f[cur] := t[f[cur]].(state := UNUSED)] && f' == f - {cur}
         else t' == t && f' == f
    case Name(cur) =>
      && n' == n && f' == f
      && t' == if cur in f && f[cur] < |t| then t[f[cur] := t[f[cur]].(parent := ChildOf(cur))] else t
    case Born(cur) =>
      && n' == n
      && if cur in f && f[cur] < |t| && t[f[cur]].parent == ChildOf(cur)
         then t' == t[f[cur] := t[f[cur]].(state := RUNNABLE)] && f' == f - {cur}
         else t' == t && f' == f
    case Exits(cur) =>
      && n' == n && f' == f
      && t' == if RunsNow(t, cur) && cur !in f && cur != INIT && t[cur].parent.ChildOf? then Exited(t, cur) else t
    case Waits(_) => t' == t && f' == f && n' == n
    case Sleeps(cur, c) =>
      && n' == n && f' == f
      && t' == if RunsNow(t, cur) then t[cur := t[cur].(chan := OnOther(c), state := SLEEPING)] else t
    case Wakes(c) => n' == n && f' == f && t' == Woken(t, OnOther(c))
    case Runs(i) =>
      && n' == n && f' == f
      && t' == if i < |t| && t[i].state.RUNNABLE? then t[i := t[i].(state := RUNNING, chan := NoChan)] else t
    case Yields(cur) =>
      && n' == n && f' == f && t' == if RunsNow(t, cur) then t[cur := t[cur].(state := RUNNABLE)] else t
    case Kills(pid) =>
      && n' == n && f' == f
      && if exists i :: 0 <= i < |t| && t[i].pid == pid
         then exists i :: 0 <= i < |t| && KilledFirst(t, t', pid, i) else t' == t
  }

  /** What a wait does: it collects a zombie child if there is one, else sleeps if there is a
      child and the process is not killed, else does nothing. */
  ghost predicate Waited(t: Table, f: map<nat, nat>, cur: nat, t': Table, found: bool, pid: nat) {
    if !RunsNow(t, cur) || cur in f then t' == t && !found
    else if HasZombie(t, cur, |t|) then found && exists i :: 0 <= i < |t| && CollectedChild(t, t', cur, i, pid)
    else
      && !found
      && t' == if !t[cur].killed && exists i :: 0 <= i < |t| && t[i].parent == ChildOf(cur)
               then t[cur := t[cur].(chan := OnProc(cur), state := SLEEPING)] else t
  }

  datatype WaitResult = Reaped(pid: nat) | NoChild | Asleep

  class ProcTable {
    const ptable: array<Proc>
    var nextpid: nat
    /** Slots of processes in fork, and of the children they are making: where those
        processes are in the code. */
    var forking: map<nat, nat>
    /** Pids that wait has returned. */
    ghost var reaped: set<nat>

    ghost predicate Valid()
      reads this, ptable
    {
      AllInv(ptable[..], forking, nextpid, reaped)
    }

    /** userinit: init is runnable, and every other slot is free. */
    constructor ()
      ensures Valid() && fresh(ptable) && forking == map[] && reaped == {} && nextpid == 2
      ensures forall i :: 0 <= i < NPROC ==>
                ptable[i] == Proc(if i == INIT then RUNNABLE else UNUSED, if i == INIT then 1 else 0, NoParent, NoChan,
                                  false)
    {
      ptable := new Proc[NPROC](i =>
        Proc(if i == INIT then RUNNABLE else UNUSED, if i == INIT then 1 else 0, NoParent, NoChan, false));
      nextpid := 2;
      forking, reaped := map[], {};
      new;
      assert forall k :: 0 <= k < NPROC ==> ParentOk(ptable[..], forking, k);
    }

    /** The table under ptable.lock: every process asleep on c becomes runnable. */
    method Wakeup1(c: Chan)
      modifies ptable
      ensures ptable[..] == Woken(old(ptable[..]), c)
    {
      var i := 0;
      while i < ptable.Length
        invariant 0 <= i <= ptable.Length
        invariant forall k :: 0 <= k < i ==> ptable[k] == Woken(old(ptable[..]), c)[k]
        invariant forall k :: i <= k < ptable.Length ==> ptable[k] == old(ptable[k])
      {
        if ptable[i].state.SLEEPING? && ptable[i].chan == c {
          ptable[i] := ptable[i].(state := RUNNABLE);
        }
        i := i + 1;
      }
    }

    method Wakeup(c: Chan)
      requires Valid()
      modifies ptable
      ensures Valid() && ptable[..] == Woken(old(ptable[..]), c)
    {
      WokenKeeps(ptable[..], forking, nextpid, reaped, c);
      Wakeup1(c);
    }

    /** allocproc, for a process in fork: the first free slot, or none. */
    method AllocProc(cur: nat) returns (found: bool, i: nat)
      requires Valid() && cur < NPROC && ptable[cur].state.RUNNING? && cur !in forking
      modifies this`nextpid, this`forking, ptable
      ensures Valid()
      ensures found ==> i < NPROC && old(ptable[i]).state.UNUSED? && forking == old(forking)[cur := i]
                          && ptable[..] == old(ptable[..])[i := old(ptable[i]).(state := EMBRYO, pid := old(nextpid))]
                          && nextpid == old(nextpid) + 1
      ensures found ==> forall k :: 0 <= k < i ==> !old(ptable[k]).state.UNUSED?
      ensures found ==> (ptable[i].killed <==> old(ptable[i]).killed)
      ensures !found ==> ptable[..] == old(ptable[..]) && forking == old(forking) && nextpid == old(nextpid)
                           && forall k :: 0 <= k < NPROC ==> !ptable[k].state.UNUSED?
    {
      hide ParentOk, WaitInv, PidInv;
      i := 0;
      while i < NPROC
        invariant i <= NPROC && ptable[..] == old(ptable[..])
        invariant forall k :: 0 <= k < i ==> !ptable[k].state.UNUSED?
      {
        if ptable[i].state.UNUSED? {
          EmbryoKeeps(ptable[..], forking, nextpid, reaped, i, cur);
          ptable[i] := ptable[i].(state := EMBRYO, pid := nextpid);
          nextpid, forking := nextpid + 1, forking[cur := i];
          return true, i;
        }
        i := i + 1;
      }
      return false, 0;
    }

    /** fork out of memory: the slot is free again. Its pid and killed stay as they are. */
    method ForkFail(cur: nat, np: nat)
      requires Valid() && cur in forking && forking[cur] == np && ptable[np].parent == NoParent
      modifies this`forking, ptable
      ensures Valid() && forking == old(forking) - {cur}
      ensures ptable[..] == old(ptable[..])[np := old(ptable[np]).(state := UNUSED)]
    {
      EmbryoGone(ptable[..], forking, nextpid, reaped, cur);
      ptable[np] := ptable[np].(state := UNUSED);
      forking := forking - {cur};
    }

    /** fork names the parent, without the lock ... */
    method ForkParent(cur: nat, np: nat)
      requires Valid() && cur in forking && forking[cur] == np
      modifies ptable
      ensures Valid() && ptable[..] == old(ptable[..])[np := old(ptable[np]).(parent := ChildOf(cur))]
    {
      EmbryoNamed(ptable[..], forking, nextpid, reaped, cur);
      ptable[np] := ptable[np].(parent := ChildOf(cur));
    }

    /** ... and then, with it, lets the child run. */
    method ForkDone(cur: nat, np: nat) returns (pid: nat)
      requires Valid() && cur in forking && forking[cur] == np && ptable[np].parent == ChildOf(cur)
      modifies this`forking, ptable
      ensures Valid() && forking == old(forking) - {cur} && pid == old(ptable[np]).pid && pid !in reaped
      ensures ptable[..] == old(ptable[..])[np := old(ptable[np]).(state := RUNNABLE)]
    {
      EmbryoBorn(ptable[..], forking, nextpid, reaped, cur);
      pid := ptable[np].pid;
      ptable[np] := ptable[np].(state := RUNNABLE);
      forking := forking - {cur};
    }

    /** exit, from taking the lock on. Init may not call it: the source panics. */
    method Exit(cur: nat)
      requires Valid() && cur < NPROC && ptable[cur].state.RUNNING? && cur !in forking && cur != INIT
      modifies ptable
      ensures old(ptable[cur]).parent.ChildOf?
      ensures Valid() && ptable[..] == Exited(old(ptable[..]), cur)
    {
      ghost var t := ptable[..];
      ExitKeeps(t, forking, nextpid, reaped, cur);
      hide AllInv;
      Wakeup1(OnProc(ptable[cur].parent.p));
      ghost var u := ptable[..];
      var i := 0;
      while i < NPROC
        invariant i <= NPROC && ptable[..] == Passed(u, cur, i)
      {
        if ptable[i].parent == ChildOf(cur) {
          ptable[i] := ptable[i].(parent := ChildOf(INIT));
          if ptable[i].state.ZOMBIE? {
            Wakeup1(OnProc(INIT));
          }
        }
        i := i + 1;
      }
      ptable[cur] := ptable[cur].(state := ZOMBIE);
    }

    /** One pass of wait's loop: collects the first zombie child, gives up if there are no
        children or the process was killed, or goes to sleep until a child exits. */
    method Wait(cur: nat) returns (r: WaitResult)
      requires Valid() && cur < NPROC && ptable[cur].state.RUNNING? && cur !in forking
      modifies this`reaped, ptable
      ensures Valid()
      ensures r.Reaped? ==> r.pid !in old(reaped) && reaped == old(reaped) + {r.pid}
      ensures r.Reaped? ==> exists i :: 0 <= i < NPROC && CollectedChild(old(ptable[..]), ptable[..], cur, i, r.pid)
      ensures !r.Reaped? ==> reaped == old(reaped)
      ensures !r.Reaped? ==>
                forall i :: 0 <= i < NPROC && old(ptable[i]).parent == ChildOf(cur) ==> !old(ptable[i]).state.ZOMBIE?
      ensures r.NoChild? ==> ptable[..] == old(ptable[..])
      ensures r.NoChild? ==> ptable[cur].killed || forall i :: 0 <= i < NPROC ==> ptable[i].parent != ChildOf(cur)
      ensures r.Asleep? ==>
              ptable[..] == old(ptable[..])[cur := old(ptable[cur]).(chan := OnProc(cur), state := SLEEPING)]
      ensures r.Asleep? ==>
                !old(ptable[cur]).killed && exists i :: 0 <= i < NPROC && old(ptable[i]).parent == ChildOf(cur)
    {
      var havekids := false;
      var p := 0;
      while p < NPROC
        invariant p <= NPROC && ptable[..] == old(ptable[..])
        invariant forall i :: 0 <= i < p && ptable[i].parent == ChildOf(cur) ==> !ptable[i].state.ZOMBIE?
        invariant havekids <==> exists i :: 0 <= i < p && ptable[i].parent == ChildOf(cur)
      {
        if ptable[p].parent == ChildOf(cur) {
          havekids := true;
          if ptable[p].state.ZOMBIE? {
            CollectKeeps(ptable[..], forking, nextpid, reaped, p);
            r := Reaped(ptable[p].pid);
            ptable[p] := ptable[p].(pid := 0, parent := NoParent, killed := false, state := UNUSED);
            assert CollectedChild(old(ptable[..]), ptable[..], cur, p, r.pid);
            reaped := reaped + {r.pid};
            return;
          }
        }
        p := p + 1;
      }
      if !havekids || ptable[cur].killed { return NoChild; }
      LiveChange(ptable[..], forking, nextpid, reaped, cur, ptable[cur].(chan := OnProc(cur), state := SLEEPING));
      ptable[cur] := ptable[cur].(chan := OnProc(cur), state := SLEEPING);
      return Asleep;
    }

    /** sleep on some other channel, with ptable.lock held. */
    method Sleep(cur: nat, c: nat)
      requires Valid() && cur < NPROC && ptable[cur].state.RUNNING?
      modifies ptable
      ensures Valid() && ptable[..] == old(ptable[..])[cur := old(ptable[cur]).(chan := OnOther(c), state := SLEEPING)]
    {
      LiveChange(ptable[..], forking, nextpid, reaped, cur, ptable[cur].(chan := OnOther(c), state := SLEEPING));
      ptable[cur] := ptable[cur].(chan := OnOther(c), state := SLEEPING);
    }

    /** The scheduler runs a process, which tidies up after sleep. */
    method Schedule(i: nat)
      requires Valid() && i < NPROC && ptable[i].state.RUNNABLE?
      modifies ptable
      ensures Valid() && ptable[..] == old(ptable[..])[i := old(ptable[i]).(state := RUNNING, chan := NoChan)]
    {
      LiveChange(ptable[..], forking, nextpid, reaped, i, ptable[i].(state := RUNNING, chan := NoChan));
      ptable[i] := ptable[i].(state := RUNNING, chan := NoChan);
    }

    method Yield(cur: nat)
      requires Valid() && cur < NPROC && ptable[cur].state.RUNNING?
      modifies ptable
      ensures Valid() && ptable[..] == old(ptable[..])[cur := old(ptable[cur]).(state := RUNNABLE)]
    {
      LiveChange(ptable[..], forking, nextpid, reaped, cur, ptable[cur].(state := RUNNABLE));
      ptable[cur] := ptable[cur].(state := RUNNABLE);
    }

    /** kill marks the first slot that has the pid, in use or not, and wakes it. */
    method Kill(pid: nat) returns (found: bool)
      requires Valid()
      modifies ptable
      ensures Valid()
      ensures found <==> exists i :: 0 <= i < NPROC && old(ptable[i]).pid == pid
      ensures found ==> exists i :: 0 <= i < NPROC && KilledFirst(old(ptable[..]), ptable[..], pid, i)
      ensures !found ==> ptable[..] == old(ptable[..])
    {
      var i := 0;
      while i < NPROC
        invariant i <= NPROC && ptable[..] == old(ptable[..])
        invariant forall k :: 0 <= k < i ==> ptable[k].pid != pid
      {
        if ptable[i].pid == pid {
          KillKeeps(ptable[..], forking, nextpid, reaped, i);
          ptable[i] := ptable[i].(killed := true);
          if ptable[i].state.SLEEPING? {
            ptable[i] := ptable[i].(state := RUNNABLE);
          }
          assert ptable[..] == old(ptable[..])[i := Killed(old(ptable[..])[i])];
          assert KilledFirst(old(ptable[..]), ptable[..], pid, i);
          return true;
        }
        i := i + 1;
      }
      return false;
    }

    predicate Running(cur: nat)
      requires ptable.Length == NPROC
      reads ptable
    {
      cur < NPROC && ptable[cur].state.RUNNING?
    }

    /** One event, if some process is where it can come next. pid is what wait returned. */
    method Step(e: Event) returns (found: bool, pid: nat)
      requires Valid()
      modifies this, ptable
      ensures Valid() && reaped == old(reaped) + (if found then {pid} else {})
      ensures found ==> e.Waits? && pid !in old(reaped)
                          && exists i :: 0 <= i < NPROC && CollectedChild(old(ptable[..]), ptable[..], e.cur, i, pid)
      ensures !e.Waits? ==> Follows(e, old(ptable[..]), old(forking), old(nextpid), ptable[..], forking, nextpid)
      ensures e.Waits? ==> Waited(old(ptable[..]), old(forking), e.cur, ptable[..], found, pid)
    {
      hide ParentOk, WaitInv, PidInv, Exited, Follows;
      found, pid := false, 0;
      if !e.Waits? {
        StepOn(e);
      } else if Running(e.cur) && e.cur !in forking {
        var r := Wait(e.cur);
        if r.Reaped? { found, pid := true, r.pid; }
      }
    }

    /** Any event but a wait. */
    method StepOn(e: Event)
      requires Valid()
      modifies this`nextpid, this`forking, ptable
      ensures Valid() && Follows(e, old(ptable[..]), old(forking), old(nextpid), ptable[..], forking, nextpid)
    {
      hide ParentOk, WaitInv, PidInv, Exited;
      match e {
        case Exits(cur) =>
          if Running(cur) && cur !in forking && cur != INIT { Exit(cur); }
        case Waits(_) =>
        case Sleeps(cur, c) =>
          if Running(cur) { Sleep(cur, c); }
        case Wakes(c) => Wakeup(OnOther(c));
        case Runs(i) =>
          if i < NPROC && ptable[i].state.RUNNABLE? { Schedule(i); }
        case Yields(cur) =>
          if Running(cur) { Yield(cur); }
        case Kills(pid) => var ok := Kill(pid);
        case _ => StepFork(e);
      }
    }

    /** A part of some fork. */
    method StepFork(e: Event)
      requires Valid() && (e.Alloc? || e.Fail? || e.Name? || e.Born?)
      modifies this`nextpid, this`forking, ptable
      ensures Valid() && Follows(e, old(ptable[..]), old(forking), old(nextpid), ptable[..], forking, nextpid)
    {
      hide ParentOk, WaitInv, PidInv, Exited;
      match e {
        case Alloc(cur) =>
          if Running(cur) && cur !in forking { var ok, np := AllocProc(cur); }
        case Fail(cur) =>
          if cur in forking && ptable[forking[cur]].parent == NoParent { ForkFail(cur, forking[cur]); }
        case Name(cur) =>
          if cur in forking { ForkParent(cur, forking[cur]); }
        case Born(cur) =>
          if cur in forking && ptable[forking[cur]].parent == ChildOf(cur) { var pid := ForkDone(cur, forking[cur]); }
      }
    }

    /** Any events, in any order: the tree and the wakeups stay right, and wait never
        returns a pid twice, nor one that is in use. */
    method Run(events: seq<Event>) returns (waited: seq<nat>)
      requires Valid() && reaped == {}
      modifies this, ptable
      ensures Valid() && Distinct(waited) && forall x :: x in reaped <==> x in waited
      ensures forall i :: 0 <= i < NPROC && !ptable[i].state.UNUSED? ==> ptable[i].pid !in waited
    {
      waited := [];
      var k := 0;
      while k < |events|
        invariant 0 <= k <= |events| && Valid() && Distinct(waited) && forall x :: x in reaped <==> x in waited
      {
        var found, pid := Step(events[k]);
        if found { waited := waited + [pid]; }
        k := k + 1;
      }
      assert forall i :: 0 <= i < NPROC && !ptable[..][i].state.UNUSED? ==> ptable[..][i].pid !in reaped;
    }
  }

  /** A slot keeps its mark while it is free, so a kill that hits a free slot marks the next
      process there: after kill(0), the first child of init begins killed. */
  method BornKilled() returns (t: ProcTable, i: nat)
    ensures fresh(t) && t.Valid() && i < NPROC && i != INIT
    ensures t.ptable[i].state.EMBRYO? && t.ptable[i].killed && t.ptable[i].pid == 2
    ensures INIT in t.forking && t.forking[INIT] == i
  {
    hide ParentOk, WaitInv, PidInv;
    t := new ProcTable();
    ghost var a := t.ptable[..];
    assert a[0].pid == 1 && a[1].pid == 0;
    var hit := t.Kill(0);
    ghost var k :| 0 <= k < NPROC && KilledFirst(a, t.ptable[..], 0, k);
    assert t.ptable[..][0] == a[0] && t.ptable[..][1] == Killed(a[1]);
    t.Schedule(INIT);
    assert t.ptable[..][1] == Killed(a[1]);
    assert t.ptable[1].state.UNUSED? && t.ptable[1].killed && !t.ptable[0].state.UNUSED?;
    var found;
    found, i := t.AllocProc(INIT);
  }
}
