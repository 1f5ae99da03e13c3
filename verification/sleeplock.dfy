/**
 The sleep/wakeup protocol under a sleeplock (sleeplock.c, and sleep, wakeup and kill of
 proc.c) as interleaved steps of any number of processes on any number of CPUs. Each step
 is one access to shared state; a spinlock is taken in one step, when it is free. Kill
 stands for every waking that is not this lock's own.
*/
module SleepLock {
  // Where a process is. Comments name the spinlocks it holds: lk is the sleeplock's own.
  datatype Pc =
    | Outside
    | Entering              // acquiresleep: about to take lk
    | Testing               // lk: about to look at locked
    | Leaving               // lk: locked is set; about to drop lk
    | Owning                // acquiresleep has returned
    | GoingToSleep          // lk: in sleep, about to take ptable.lock
    // lk, ptable.lock: about to drop lk (in the other order, neither: about to take ptable.lock)
    | HasBoth
    | Dozing                // ptable.lock: about to become SLEEPING
    | Sleeping              // SLEEPING on this lock; the scheduler has dropped ptable.lock
    | Woken                 // RUNNABLE again, not yet scheduled
    | Resuming              // ptable.lock: back from sched
    | Releasing             // releasesleep: about to take lk
    | Clearing              // lk: about to clear locked
    | Cleared               // lk: locked is clear; about to take ptable.lock for wakeup
    | Waking                // lk, ptable.lock: about to run wakeup1
    | Woke                  // lk, ptable.lock: about to drop ptable.lock
    | Finishing             // lk: about to drop lk

  datatype Holder = Nobody | By(p: nat)

  /** pid is lk->pid, by process number. */
  datatype State = State(locked: bool, pid: Holder, lk: Holder, ptable: Holder, pc: seq<Pc>)

  /** sleep takes ptable.lock before it drops the caller's lock; the other order is here
      to show what it is for. */
  datatype Order = PtableFirst | LockFirst

  predicate HoldsLk(c: Pc) {
    c.Testing? || c.Leaving? || c.GoingToSleep? || c.HasBoth?
    || c.Clearing? || c.Cleared? || c.Waking? || c.Woke? || c.Finishing?
  }

  predicate HoldsPtable(c: Pc) {
    c.HasBoth? || c.Dozing? || c.Resuming? || c.Waking? || c.Woke?
  }

  /** From setting locked to clearing it. */
  predicate HasLock(c: Pc) {
    c.Leaving? || c.Owning? || c.Releasing? || c.Clearing?
  }

  /** Between clearing locked and the end of wakeup1. */
  predicate MidRelease(c: Pc) {
    c.Cleared? || c.Waking?
  }

  function Goto(s: State, p: nat, c: Pc): State
    requires p < |s.pc|
  {
    s.(pc := s.pc[p := c])
  }

  function WakeAll(pc: seq<Pc>): (r: seq<Pc>)
    ensures |r| == |pc|
    ensures forall q :: 0 <= q < |pc| ==> r[q] == if pc[q].Sleeping? then Woken else pc[q]
  {
    if pc == [] then [] else WakeAll(pc[..|pc| - 1]) + [if pc[|pc| - 1].Sleeping? then Woken else pc[|pc| - 1]]
  }

  /** The next step of process p. */
  ghost predicate Step(s: State, t: State, p: nat, order: Order) {
    p < |s.pc| &&
    match s.pc[p]
    case Outside => t == Goto(s, p, Entering)
    case Entering => s.lk == Nobody && t == Goto(s.(lk := By(p)), p, Testing)
    case Testing =>
      if s.locked then t == Goto(s, p, GoingToSleep)
      else t == Goto(s.(locked := true, pid := By(p)), p, Leaving)
    case Leaving => t == Goto(s.(lk := Nobody), p, Owning)
    case Owning => t == Goto(s, p, Releasing)
    case GoingToSleep =>
      (match order
       case PtableFirst => s.ptable == Nobody && t == Goto(s.(ptable := By(p)), p, HasBoth)
       case LockFirst => t == Goto(s.(lk := Nobody), p, HasBoth))
    case HasBoth =>
      (match order
       case PtableFirst => t == Goto(s.(lk := Nobody), p, Dozing)
       case LockFirst => s.ptable == Nobody && t == Goto(s.(ptable := By(p)), p, Dozing))
    case Dozing => t == Goto(s.(ptable := Nobody), p, Sleeping)
    case Sleeping => false
    case Woken => s.ptable == Nobody && t == Goto(s.(ptable := By(p)), p, Resuming)
    case Resuming => t == Goto(s.(ptable := Nobody), p, Entering)
    case Releasing => s.lk == Nobody && t == Goto(s.(lk := By(p)), p, Clearing)
    case Clearing => t == Goto(s.(locked := false, pid := Nobody), p, Cleared)
    case Cleared => s.ptable == Nobody && t == Goto(s.(ptable := By(p)), p, Waking)
    case Waking => t == Goto(s.(pc := WakeAll(s.pc)), p, Woke)
    case Woke => t == Goto(s.(ptable := Nobody), p, Finishing)
    case Finishing => t == Goto(s.(lk := Nobody), p, Outside)
  }

  /** Somebody else wakes p: kill, or any other code, under ptable.lock. */
  ghost predicate Kill(s: State, t: State, p: nat) {
    p < |s.pc| && s.ptable == Nobody && s.pc[p].Sleeping? && t == Goto(s, p, Woken)
  }

  ghost predicate Next(s: State, t: State, order: Order) {
    exists p: nat :: Step(s, t, p, order) || Kill(s, t, p)
  }

  ghost predicate Run(r: seq<State>, order: Order) {
    && |r| > 0
    && (exists n: nat :: r[0] == Start(n))
    && (forall i: nat :: i + 1 < |r| ==> NextAt(r, i, order))
  }

  ghost predicate NextAt(r: seq<State>, i: nat, order: Order)
    requires i + 1 < |r|
  {
    Next(r[i], r[i + 1], order)
  }

  function Start(n: nat): State {
    State(false, Nobody, Nobody, Nobody, Idle(n))
  }

  function Idle(n: nat): (r: seq<Pc>)
    ensures |r| == n && forall q :: 0 <= q < n ==> r[q] == Outside
  {
    if n == 0 then [] else Idle(n - 1) + [Outside]
  }

  // ---------- the invariant ----------

  /** A spinlock's holder is the one process at a place where it holds it. */
  ghost predicate SpinInv(s: State) {
    && (forall p :: 0 <= p < |s.pc| ==> (HoldsLk(s.pc[p]) <==> s.lk == By(p)))
    && (forall p :: 0 <= p < |s.pc| ==> (HoldsPtable(s.pc[p]) <==> s.ptable == By(p)))
    && (s.lk.By? ==> s.lk.p < |s.pc|) && (s.ptable.By? ==> s.ptable.p < |s.pc|)
  }

  /** locked and pid name the one process that has the sleeplock. */
  ghost predicate OwnerInv(s: State) {
    && (s.locked <==> s.pid != Nobody)
    && (forall p :: 0 <= p < |s.pc| ==> (HasLock(s.pc[p]) <==> s.pid == By(p)))
    && (s.pid.By? ==> s.pid.p < |s.pc|)
  }

  /** The lock is taken, or its releaser has yet to wake the sleepers. */
  ghost predicate WillBeWoken(s: State) {
    s.locked || exists r :: 0 <= r < |s.pc| && MidRelease(s.pc[r])
  }

  ghost predicate WakeInv(s: State) {
    && (forall p :: 0 <= p < |s.pc| && (s.pc[p].GoingToSleep? || s.pc[p].HasBoth?) ==> s.locked)
    && (forall p :: 0 <= p < |s.pc| && (s.pc[p].Dozing? || s.pc[p].Sleeping?) ==> WillBeWoken(s))
  }

  ghost predicate Inv(s: State) {
    SpinInv(s) && OwnerInv(s) && WakeInv(s)
  }

  /** Where a step takes its process. */
  function After(c: Pc, locked: bool): Pc {
    match c
    case Outside => Entering
    case Entering => Testing
    case Testing => if locked then GoingToSleep else Leaving
    case Leaving => Owning
    case Owning => Releasing
    case GoingToSleep => HasBoth
    case HasBoth => Dozing
    case Dozing => Sleeping
    case Sleeping => Woken
    case Woken => Resuming
    case Resuming => Entering
    case Releasing => Clearing
    case Clearing => Cleared
    case Cleared => Waking
    case Waking => Woke
    case Woke => Finishing
    case Finishing => Outside
  }

  /** What a step does to each part of the state. */
  lemma Effects(s: State, t: State, p: nat)
    requires Step(s, t, p, PtableFirst)
    ensures |t.pc| == |s.pc| && p < |s.pc| && t.pc[p] == After(s.pc[p], s.locked) && !s.pc[p].Sleeping?
    ensures forall q :: 0 <= q < |s.pc| && q != p ==>
              t.pc[q] == if s.pc[p].Waking? && s.pc[q].Sleeping? then Woken else s.pc[q]
  {
  }

  lemma LockEffects(s: State, t: State, p: nat)
    requires Step(s, t, p, PtableFirst)
    ensures p < |s.pc|
    ensures var c := s.pc[p];
            && t.lk == (if c.Entering? || c.Releasing? then By(p)
                        else if c.Leaving? || c.HasBoth? || c.Finishing? then Nobody else s.lk)
            && t.ptable == (if c.GoingToSleep? || c.Woken? || c.Cleared? then By(p)
                            else if c.Dozing? || c.Resuming? || c.Woke? then Nobody else s.ptable)
            && (c.Entering? || c.Releasing? ==> s.lk == Nobody)
            && (c.GoingToSleep? || c.Woken? || c.Cleared? ==> s.ptable == Nobody)
            && t.locked == (if c.Testing? then true else if c.Clearing? then false else s.locked)
            && t.pid == (if c.Testing? && !s.locked then By(p) else if c.Clearing? then Nobody else s.pid)
  {
  }

  lemma SpinKeptAt(s: State, t: State, p: nat, q: nat)
    requires SpinInv(s) && Step(s, t, p, PtableFirst) && q < |s.pc|
    ensures q < |t.pc|
    ensures (HoldsLk(t.pc[q]) <==> t.lk == By(q)) && (HoldsPtable(t.pc[q]) <==> t.ptable == By(q))
  {
    Effects(s, t, p);
    LockEffects(s, t, p);
    hide Step;
    assert (HoldsLk(s.pc[p]) <==> s.lk == By(p)) && (HoldsPtable(s.pc[p]) <==> s.ptable == By(p));
    assert (HoldsLk(s.pc[q]) <==> s.lk == By(q)) && (HoldsPtable(s.pc[q]) <==> s.ptable == By(q));
    hide SpinInv;
  }

  lemma OwnerKept(s: State, t: State, p: nat)
    requires OwnerInv(s) && Step(s, t, p, PtableFirst)
    ensures OwnerInv(t)
  {
    Effects(s, t, p);
    LockEffects(s, t, p);
    hide Step;
    forall q | 0 <= q < |t.pc| ensures HasLock(t.pc[q]) <==> t.pid == By(q) {
      assert HasLock(s.pc[q]) <==> s.pid == By(q);
      assert HasLock(s.pc[p]) <==> s.pid == By(p);
    }
  }

  /** The one step that clears locked comes before the wakeup, and the one that ends the
      wakeup leaves nobody asleep. */
  lemma WakeKeptAt(s: State, t: State, p: nat, q: nat)
    requires Inv(s) && Step(s, t, p, PtableFirst) && q < |t.pc| && (t.pc[q].Dozing? || t.pc[q].Sleeping?)
    ensures WillBeWoken(t)
  {
    Effects(s, t, p);
    LockEffects(s, t, p);
    hide Step;
    if s.pc[p].Clearing? || s.pc[p].Cleared? {
      assert MidRelease(t.pc[p]);
    } else if q != p || s.pc[p].Dozing? {
      assert s.pc[q].Dozing? || s.pc[q].Sleeping?;
      if !s.locked {
        var r :| 0 <= r < |s.pc| && MidRelease(s.pc[r]);
        assert r != p ==> MidRelease(t.pc[r]);
        assert HoldsPtable(s.pc[q]) ==> s.ptable == By(q);
      }
    }
  }

  lemma SpinKept(s: State, t: State, p: nat)
    requires SpinInv(s) && Step(s, t, p, PtableFirst)
    ensures SpinInv(t)
  {
    Effects(s, t, p);
    LockEffects(s, t, p);
    hide Step;
    forall q | 0 <= q < |t.pc|
      ensures (HoldsLk(t.pc[q]) <==> t.lk == By(q)) && (HoldsPtable(t.pc[q]) <==> t.ptable == By(q))
    {
      SpinKeptAt(s, t, p, q);
    }
    hide HoldsLk, HoldsPtable;
  }

  lemma WakeKept(s: State, t: State, p: nat)
    requires Inv(s) && Step(s, t, p, PtableFirst)
    ensures WakeInv(t)
  {
    hide Inv, Step, WillBeWoken;
    forall q | 0 <= q < |t.pc| && (t.pc[q].Dozing? || t.pc[q].Sleeping?) ensures WillBeWoken(t) {
      WakeKeptAt(s, t, p, q);
    }
    forall q | 0 <= q < |t.pc| && (t.pc[q].GoingToSleep? || t.pc[q].HasBoth?) ensures t.locked {
      LockedKept(s, t, p, q);
    }
  }

  lemma StepKeeps(s: State, t: State, p: nat)
    requires Inv(s) && Step(s, t, p, PtableFirst)
    ensures Inv(t)
  {
    hide Step, SpinInv, OwnerInv, WakeInv;
    SpinKept(s, t, p);
    OwnerKept(s, t, p);
    WakeKept(s, t, p);
  }

  /** Whoever is on the way to sleep still holds lk, so nobody can clear locked. */
  lemma LockedKept(s: State, t: State, p: nat, q: nat)
    requires Inv(s) && Step(s, t, p, PtableFirst) && q < |t.pc| && (t.pc[q].GoingToSleep? || t.pc[q].HasBoth?)
    ensures t.locked
  {
    Effects(s, t, p);
    LockEffects(s, t, p);
    hide Step;
    assert q < |s.pc| && HoldsLk(s.pc[p]) ==> s.lk == By(p);
    assert q != p ==> s.pc[q] == t.pc[q] && s.lk == By(q);
  }

  lemma KillKeeps(s: State, t: State, p: nat)
    requires Inv(s) && Kill(s, t, p)
    ensures Inv(t)
  {
    forall q | 0 <= q < |t.pc| && (t.pc[q].Dozing? || t.pc[q].Sleeping?) ensures WillBeWoken(t) {
      if !s.locked {
        var r :| 0 <= r < |s.pc| && MidRelease(s.pc[r]);
        assert MidRelease(t.pc[r]);
      }
    }
  }

  lemma NextKeeps(s: State, t: State)
    requires Inv(s) && Next(s, t, PtableFirst)
    ensures Inv(t)
  {
    hide Inv, Step, Kill;
    var p: nat :| Step(s, t, p, PtableFirst) || Kill(s, t, p);
    if Step(s, t, p, PtableFirst) {
      StepKeeps(s, t, p);
    } else {
      KillKeeps(s, t, p);
    }
  }

  lemma StartInv(n: nat)
    ensures Inv(Start(n))
  {
  }

  lemma {:induction false} RunKeeps(r: seq<State>, i: nat)
    requires Run(r, PtableFirst) && i < |r|
    ensures Inv(r[i])
  {
    hide Inv, Next, Start;
    if i == 0 {
      var n: nat :| r[0] == Start(n);
      StartInv(n);
    } else {
      RunKeeps(r, i - 1);
      assert NextAt(r, i - 1, PtableFirst);
      NextKeeps(r[i - 1], r[i]);
    }
  }

  // ---------- what holds in every run ----------

  /** At most one process has the sleeplock. */
  lemma MutualExclusion(r: seq<State>, i: nat, p: nat, q: nat)
    requires Run(r, PtableFirst) && i < |r| && p < |r[i].pc| && q < |r[i].pc|
    requires HasLock(r[i].pc[p]) && HasLock(r[i].pc[q])
    ensures p == q
  {
    RunKeeps(r, i);
  }

  /** Nobody sleeps on a free lock, unless its releaser is still between clearing
      locked and the end of its wakeup. */
  lemma NoLostWakeup(r: seq<State>, i: nat, p: nat)
    requires Run(r, PtableFirst) && i < |r| && p < |r[i].pc| && r[i].pc[p].Sleeping?
    ensures r[i].locked || exists q :: 0 <= q < |r[i].pc| && MidRelease(r[i].pc[q])
  {
    RunKeeps(r, i);
  }

  /** holdingsleep, asked by p, answers whether p has the lock. */
  lemma HoldingIsExact(r: seq<State>, i: nat, p: nat)
    requires Run(r, PtableFirst) && i < |r| && p < |r[i].pc|
    ensures r[i].locked && r[i].pid == By(p) <==> HasLock(r[i].pc[p])
  {
    RunKeeps(r, i);
  }

  /** p's next step can be taken now. */
  predicate Enabled(s: State, p: nat) {
    p < |s.pc| &&
    match s.pc[p]
    case Entering => s.lk == Nobody
    case Releasing => s.lk == Nobody
    case GoingToSleep => s.ptable == Nobody
    case Woken => s.ptable == Nobody
    case Cleared => s.ptable == Nobody
    case Sleeping => false
    case _ => true
  }

  lemma EnabledSteps(s: State, p: nat) returns (t: State)
    requires Enabled(s, p)
    ensures Step(s, t, p, PtableFirst)
  {
    match s.pc[p]
    case Outside => t := Goto(s, p, Entering);
    case Entering => t := Goto(s.(lk := By(p)), p, Testing);
    case Testing =>
      t := if s.locked then Goto(s, p, GoingToSleep) else Goto(s.(locked := true, pid := By(p)), p, Leaving);
    case Leaving => t := Goto(s.(lk := Nobody), p, Owning);
    case Owning => t := Goto(s, p, Releasing);
    case GoingToSleep => t := Goto(s.(ptable := By(p)), p, HasBoth);
    case HasBoth => t := Goto(s.(lk := Nobody), p, Dozing);
    case Dozing => t := Goto(s.(ptable := Nobody), p, Sleeping);
    case Woken => t := Goto(s.(ptable := By(p)), p, Resuming);
    case Resuming => t := Goto(s.(ptable := Nobody), p, Entering);
    case Releasing => t := Goto(s.(lk := By(p)), p, Clearing);
    case Clearing => t := Goto(s.(locked := false, pid := Nobody), p, Cleared);
    case Cleared => t := Goto(s.(ptable := By(p)), p, Waking);
    case Waking => t := Goto(s.(pc := WakeAll(s.pc)), p, Woke);
    case Woke => t := Goto(s.(ptable := Nobody), p, Finishing);
    case Finishing => t := Goto(s.(lk := Nobody), p, Outside);
  }

  /** In acquiresleep or releasesleep. */
  predicate Inside(c: Pc) {
    !c.Outside? && !c.Owning?
  }

  /** Everybody inside sleeps, and the process that has the lock is outside. */
  ghost predicate AllWait(s: State) {
    && (forall q :: 0 <= q < |s.pc| && Inside(s.pc[q]) ==> s.pc[q].Sleeping?)
    && s.locked && s.pid.By? && s.pid.p < |s.pc| && s.pc[s.pid.p].Owning?
  }

  lemma SomeEnabled(s: State, q: nat) returns (p: nat)
    requires Inv(s) && q < |s.pc| && Inside(s.pc[q]) && !AllWait(s)
    ensures Enabled(s, p) && Inside(s.pc[p])
  {
    if s.ptable.By? {
      p := s.ptable.p;
      assert HoldsPtable(s.pc[p]);
    } else if s.lk.By? {
      p := s.lk.p;
      assert HoldsLk(s.pc[p]);
    } else if x: nat :| x < |s.pc| && Inside(s.pc[x]) && !s.pc[x].Sleeping? {
      p := x;
    } else {
      assert s.pc[q].Sleeping? && WillBeWoken(s) && s.locked;
      p := s.pid.p;
      assert HasLock(s.pc[p]);
    }
  }

  /** No deadlock: in every state of a run with somebody in acquiresleep or releasesleep,
      somebody there can step, unless they all sleep while a process outside has the lock. */
  lemma NoDeadlock(r: seq<State>, i: nat, q: nat)
    requires Run(r, PtableFirst) && i < |r| && q < |r[i].pc| && Inside(r[i].pc[q])
    ensures (exists p: nat, t :: p < |r[i].pc| && Inside(r[i].pc[p]) && Step(r[i], t, p, PtableFirst)) <==>
            !AllWait(r[i])
  {
    RunKeeps(r, i);
    if !AllWait(r[i]) {
      var p := SomeEnabled(r[i], q);
      var t := EnabledSteps(r[i], p);
    }
  }

  // ---------- the other order ----------

  lemma OneMore(r: seq<State>, t: State, p: nat, order: Order) returns (r': seq<State>)
    requires Run(r, order) && |r| > 0 && Step(r[|r| - 1], t, p, order)
    ensures Run(r', order) && |r'| > 0 && r'[|r'| - 1] == t
  {
    r' := r + [t];
    forall i: nat | i + 1 < |r'| ensures NextAt(r', i, order) {
      if i + 1 < |r| { assert NextAt(r, i, order); }
    }
  }

  function Two(locked: bool, pid: Holder, lk: Holder, ptable: Holder, a: Pc, b: Pc): State {
    State(locked, pid, lk, ptable, [a, b])
  }

  lemma StartTwo() returns (r: seq<State>)
    ensures EndsIn(r, Two(false, Nobody, Nobody, Nobody, Outside, Outside))
  {
    r := [Start(2)];
    assert r[0] == Start(2);
  }

  /** If sleep dropped the caller's lock first, a wakeup could be lost: process 1 ends up
      asleep on a free lock that nobody is releasing. */
  lemma LockFirstLosesWakeups() returns (r: seq<State>)
    ensures Run(r, LockFirst) && |r| > 0
    ensures var s := r[|r| - 1];
            |s.pc| == 2 && s.pc[1].Sleeping? && !s.locked && !exists q :: 0 <= q < |s.pc| && MidRelease(s.pc[q])
  {
    r := StartTwo();
    r := OneTakesIt(r);
    r := OtherDropsLk(r);
    r := OneReleases(r);
    r := OneFinishes(r);
    r := OtherSleeps(r);
  }

  ghost predicate EndsIn(r: seq<State>, s: State) {
    Run(r, LockFirst) && |r| > 0 && r[|r| - 1] == s
  }

  lemma OneTakesIt(r0: seq<State>) returns (r: seq<State>)
    requires EndsIn(r0, Two(false, Nobody, Nobody, Nobody, Outside, Outside))
    ensures EndsIn(r, Two(true, By(0), Nobody, Nobody, Owning, Outside))
  {
    hide Run;
    r := OneMore(r0, Two(false, Nobody, Nobody, Nobody, Entering, Outside), 0, LockFirst);
    r := OneMore(r, Two(false, Nobody, By(0), Nobody, Testing, Outside), 0, LockFirst);
    r := OneMore(r, Two(true, By(0), By(0), Nobody, Leaving, Outside), 0, LockFirst);
    r := OneMore(r, Two(true, By(0), Nobody, Nobody, Owning, Outside), 0, LockFirst);
  }

  lemma OtherDropsLk(r0: seq<State>) returns (r: seq<State>)
    requires EndsIn(r0, Two(true, By(0), Nobody, Nobody, Owning, Outside))
    ensures EndsIn(r, Two(true, By(0), Nobody, Nobody, Owning, HasBoth))
  {
    hide Run;
    r := OneMore(r0, Two(true, By(0), Nobody, Nobody, Owning, Entering), 1, LockFirst);
    r := OneMore(r, Two(true, By(0), By(1), Nobody, Owning, Testing), 1, LockFirst);
    r := OneMore(r, Two(true, By(0), By(1), Nobody, Owning, GoingToSleep), 1, LockFirst);
    r := OneMore(r, Two(true, By(0), Nobody, Nobody, Owning, HasBoth), 1, LockFirst);
  }

  lemma OneReleases(r0: seq<State>) returns (r: seq<State>)
    requires EndsIn(r0, Two(true, By(0), Nobody, Nobody, Owning, HasBoth))
    ensures EndsIn(r, Two(false, Nobody, By(0), By(0), Waking, HasBoth))
  {
    hide Run;
    r := OneMore(r0, Two(true, By(0), Nobody, Nobody, Releasing, HasBoth), 0, LockFirst);
    r := OneMore(r, Two(true, By(0), By(0), Nobody, Clearing, HasBoth), 0, LockFirst);
    r := OneMore(r, Two(false, Nobody, By(0), Nobody, Cleared, HasBoth), 0, LockFirst);
    r := OneMore(r, Two(false, Nobody, By(0), By(0), Waking, HasBoth), 0, LockFirst);
  }

  /** wakeup1 finds nobody asleep yet. */
  lemma OneWakes(r0: seq<State>) returns (r: seq<State>)
    requires EndsIn(r0, Two(false, Nobody, By(0), By(0), Waking, HasBoth))
    ensures EndsIn(r, Two(false, Nobody, By(0), By(0), Woke, HasBoth))
  {
    hide Run;
    assert WakeAll([Waking, HasBoth]) == [Waking, HasBoth];
    r := OneMore(r0, Two(false, Nobody, By(0), By(0), Woke, HasBoth), 0, LockFirst);
  }

  lemma OneFinishes(r0: seq<State>) returns (r: seq<State>)
    requires EndsIn(r0, Two(false, Nobody, By(0), By(0), Waking, HasBoth))
    ensures EndsIn(r, Two(false, Nobody, Nobody, Nobody, Outside, HasBoth))
  {
    hide Run;
    r := OneWakes(r0);
    r := OneMore(r, Two(false, Nobody, By(0), Nobody, Finishing, HasBoth), 0, LockFirst);
    r := OneMore(r, Two(false, Nobody, Nobody, Nobody, Outside, HasBoth), 0, LockFirst);
  }

  lemma OtherSleeps(r0: seq<State>) returns (r: seq<State>)
    requires EndsIn(r0, Two(false, Nobody, Nobody, Nobody, Outside, HasBoth))
    ensures EndsIn(r, Two(false, Nobody, Nobody, Nobody, Outside, Sleeping))
  {
    hide Run;
    r := OneMore(r0, Two(false, Nobody, Nobody, By(1), Outside, Dozing), 1, LockFirst);
    r := OneMore(r, Two(false, Nobody, Nobody, Nobody, Outside, Sleeping), 1, LockFirst);
  }
}
