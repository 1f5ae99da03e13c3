/**
 What the reference's replies say, with no word on how it keeps memory: what a process
 stores it loads, a fork gives the child what the parent has, new pages are zeros, and
 nobody else can tell. Processes.Run gives exactly these replies.
*/
module MemoryLaws {
  import opened Processes
  import opened VmModel
  import opened VmSteps

  /** What a load of p at va would be answered. */
  function Answer(w: System, p: nat, va: nat): Reply {
    EagerStep(w, Load(p, va), true).1
  }

  /** sz bytes in whole pages. */
  function RoundUp(sz: nat): nat {
    (sz + 4095) / 4096 * 4096
  }

  /** No process has a page past its size. */
  ghost predicate NothingPast(w: System) {
    forall p, va: nat :: p in w.users && va >= RoundUp(w.users[p].sz) ==> Answer(w, p, va) == Stopped
  }

  // ---------- one request ----------

  lemma LoadLooks(w: System, p: nat, va: nat, e: bool)
    ensures EagerStep(w, Load(p, va), e) == (w, Answer(w, p, va))
    ensures Answer(w, p, va) == Stopped || Answer(w, p, va).Byte?
  {
  }

  /** A store that is done is read back, one that is not changes nothing, and no store changes
      another byte. */
  lemma StoreIsRead(w: System, p: nat, va: nat, b: int, e: bool, q: nat, vb: nat)
    ensures var (w1, r) := EagerStep(w, Store(p, va, b), e);
            && (r == Done <==> Answer(w, p, va).Byte? && e)
            && (r == Done ==> Answer(w1, p, va) == Byte(b))
            && (r != Done ==> w1 == w)
            && ((q, vb) != (p, va) ==> Answer(w1, q, vb) == Answer(w, q, vb))
  {
    if q == p && vb != va { DifferentPlace(va, vb); }
  }

  lemma DifferentPlace(va: nat, vb: nat)
    requires va != vb
    ensures va / PGSIZE != vb / PGSIZE || va % PGSIZE != vb % PGSIZE
  {
  }

  /** After a fork the child has what the parent has, and nobody else has changed. */
  lemma ForkCopies(w: System, p: nat, c: nat, e: bool, q: nat, va: nat)
    ensures var (w1, r) := EagerStep(w, Fork(p, c), e);
            && (r == Done ==> c !in w.users && c in w1.users && w1.users[c].sz == w.users[p].sz)
            && (r == Done ==> Answer(w1, c, va) == Answer(w, p, va))
            && (r != Done ==> w1 == w)
            && (r != Done || q != c ==> Answer(w1, q, va) == Answer(w, q, va))
  {
  }

  /** sbrk: it answers Done if the new size is below 2^31 and memory suffices, new pages read
      as zeros, those beyond a lower size are gone, and no byte below both has changed. A
      shrink to nothing fails and leaves the size, though the pages go. */
  lemma GrowLoads(w: System, p: nat, n: Int32, e: bool, q: nat, va: nat)
    requires p in w.users && NothingPast(w)
    ensures var (w1, r) := EagerStep(w, Grow(p, n), e);
            var sz := w.users[p].sz;
            && p in w1.users && (q != p ==> Answer(w1, q, va) == Answer(w, q, va))
            && (n > 0 ==> (r == if sz + n < 0x8000_0000 && e then Done else MinusOne))
            && (n == 0 || sz + n < 0 || (n > 0 && r != Done) ==> w1 == w)
            && (n < 0 && sz + n >= 0 ==> (r == if sz + n > 0 then Done else MinusOne))
            && (n < 0 && sz + n < 0 ==> (r == if sz > 0 then Done else MinusOne))
            && (r == Done && sz + n >= 0 ==> w1.users[p].sz == sz + n)
            && (r == Done && n > 0 ==> Answer(w1, p, va) == if va < RoundUp(sz) then Answer(w, p, va)
                                                            else if va < RoundUp(sz + n) then Byte(0) else Stopped)
            && (n < 0 && sz + n >= 0 ==>
                  Answer(w1, p, va) == if va < RoundUp(sz + n) then Answer(w, p, va) else Stopped)
  {
    var sz := w.users[p].sz;
    if n > 0 && sz + n < KERNBASE && e {
      AddedZeros(w.users[p].pages, Pages(sz), Pages(sz + n));
      BelowPages(va, sz);
      BelowPages(va, sz + n);
      GrowsMore(w, p, n, va);
    } else if n < 0 && sz + n >= 0 {
      BelowPages(va, sz);
      BelowPages(va, sz + n);
      PagesRise(sz + n, sz);
      if va >= RoundUp(sz) { assert Answer(w, p, va) == Stopped; }
    }
  }

  lemma BelowPages(va: nat, sz: nat)
    ensures va < RoundUp(sz) <==> va / PGSIZE < Pages(sz)
  {
  }

  lemma PagesRise(a: nat, b: nat)
    requires a <= b
    ensures Pages(a) <= Pages(b) && RoundUp(a) <= RoundUp(b)
  {
  }

  lemma GrowsMore(w: System, p: nat, n: nat, va: nat)
    requires p in w.users && NothingPast(w)
    ensures Pages(w.users[p].sz) <= Pages(w.users[p].sz + n)
    ensures va >= RoundUp(w.users[p].sz) ==> Answer(w, p, va) == Stopped
  {
    PagesRise(w.users[p].sz, w.users[p].sz + n);
  }

  /** A process that is reaped is gone, and nobody else has changed. */
  lemma ReapForgets(w: System, p: nat, e: bool, q: nat, va: nat)
    ensures var (w1, r) := EagerStep(w, Reap(p), e);
            && (r == Done <==> p in w.users) && p !in w1.users
            && Answer(w1, q, va) == if q == p then Stopped else Answer(w, q, va)
  {
  }

  /** The first process has its program at 0, and zeros after it. */
  lemma FirstLoads(w: System, p: nat, init: seq<int>, va: nat)
    requires |init| < PGSIZE && p in w.users && w.users[p] == Image(PGSIZE, OnePage(Padded(init, |init|)))
    ensures Answer(w, p, va) == if va < |init| then Byte(init[va]) else if va < 4096 then Byte(0) else Stopped
  {
  }

  /** How few free frames are always enough: none to load, one to store or for a pipe, two
      for each new page, and for a fork one for each page, the stack, the directory and its
      kernel tables. */
  lemma NeedsFew(u: Users, r: Request)
    ensures match r
            case Load(_, _) => Needs(u, r) == 0
            case Store(_, _, _) => Needs(u, r) <= 1
            case OpenPipe(_) => Needs(u, r) <= 1
            case Grow(p, n) =>
              p in u && n > 0 ==> Needs(u, r) <= 2 * ((RoundUp(u[p].sz + n) - RoundUp(u[p].sz)) / 4096)
            case Fork(p, _) => p in u ==> Needs(u, r) <= RoundUp(u[p].sz) / 4096 + 2 + |KSLOTS|
            case _ => Needs(u, r) == 0
  {
  }

  /** And what a system can take at most: 1026 frames for each process beside its pages. */
  lemma DemandFew(w: System)
    ensures Demand(w) <= 1026 * |w.users| + |set p, v | p in w.users && v in w.users[p].pages :: (p, v)| + |w.pipes|
  {
    assert UserPages(w.users) == set p, v | p in w.users && v in w.users[p].pages :: (p, v);
  }

  // ---------- runs of requests ----------

  /** The system after the first i requests. */
  function After(w: System, script: seq<Request>, enough: seq<bool>, i: nat): System
    requires |enough| == |script| && i <= |script|
  {
    EagerRun(w, script[..i], enough[..i]).0
  }

  /** The i-th reply is that of the system at that moment, unless the kernel has stopped. */
  lemma {:induction false} ReplyAt(w: System, script: seq<Request>, enough: seq<bool>, i: nat)
    requires |enough| == |script| && i < |script|
    ensures var replies := EagerRun(w, script, enough).1;
            && |replies| == |script|
            && (Stopped !in replies[..i] ==>
                  (After(w, script, enough, i + 1), replies[i])
                    == EagerStep(After(w, script, enough, i), script[i], enough[i]))
    decreases |script|
  {
    hide EagerStep;
    var last := |script| - 1;
    var (w1, replies) := EagerRun(w, script[..last], enough[..last]);
    ReplyCount(w, script[..last], enough[..last]);
    assert script[..i + 1][..i] == script[..i] && enough[..i + 1][..i] == enough[..i];
    if i < last {
      ReplyAt(w, script[..last], enough[..last], i);
      assert script[..last][..i] == script[..i] && enough[..last][..i] == enough[..i];
      assert script[..last][..i + 1] == script[..i + 1] && enough[..last][..i + 1] == enough[..i + 1];
      assert EagerRun(w, script, enough).1[..i] == replies[..i];
    } else {
      assert script[..i + 1] == script && enough[..i + 1] == enough;
      assert EagerRun(w, script, enough).1[..i] == replies;
    }
  }

  lemma {:induction false} ReplyCount(w: System, script: seq<Request>, enough: seq<bool>)
    requires |enough| == |script|
    ensures |EagerRun(w, script, enough).1| == |script|
    decreases |script|
  {
    hide EagerStep;
    if script != [] { ReplyCount(w, script[..|script| - 1], enough[..|script| - 1]); }
  }

  /** The request is not a store to that byte, nor one that may take it away. */
  predicate Spares(r: Request, p: nat, va: nat) {
    match r
    case Store(q, vb, _) => q != p || vb != va
    case Grow(q, _) => q != p
    case Reap(q) => q != p
    case _ => true
  }

  lemma SparedStays(w: System, r: Request, e: bool, p: nat, va: nat)
    requires Spares(r, p, va) && Answer(w, p, va).Byte?
    ensures Answer(EagerStep(w, r, e).0, p, va) == Answer(w, p, va)
  {
    match r
    case Fork(q, c) => ForkCopies(w, q, c, e, p, va);
    case Store(q, vb, b) => StoreIsRead(w, q, vb, b, e, p, va);
    case Reap(q) => ReapForgets(w, q, e, p, va);
    case Load(q, vb) => LoadLooks(w, q, vb, e);
    case _ =>
  }

  /** From request i up to k nothing touches the byte. */
  ghost predicate SparedFrom(script: seq<Request>, i: nat, k: nat, p: nat, va: nat) {
    i <= k <= |script| && forall j :: i <= j < k ==> Spares(script[j], p, va)
  }

  lemma {:induction false} RunSpares(w: System, script: seq<Request>, enough: seq<bool>, i: nat, k: nat, p: nat,
                                     va: nat)
    requires |enough| == |script| && SparedFrom(script, i, k, p, va)
    requires Answer(After(w, script, enough, i), p, va).Byte?
    requires |EagerRun(w, script, enough).1| == |script| && Stopped !in EagerRun(w, script, enough).1[..k]
    ensures Answer(After(w, script, enough, k), p, va) == Answer(After(w, script, enough, i), p, va)
    decreases k
  {
    hide EagerRun, EagerStep, Answer, After;
    if i < k {
      var replies := EagerRun(w, script, enough).1;
      assert forall x :: x in replies[..k - 1] ==> x in replies[..k];
      RunSpares(w, script, enough, i, k - 1, p, va);
      ReplyAt(w, script, enough, k - 1);
      SparedStays(After(w, script, enough, k - 1), script[k - 1], enough[k - 1], p, va);
    }
  }

  /** A load is answered with the last byte stored there, whatever else has happened since. */
  lemma LastStoreIsRead(w: System, script: seq<Request>, enough: seq<bool>, i: nat, k: nat, p: nat, va: nat, b: int)
    requires |enough| == |script| && i < k < |script| && script[i] == Store(p, va, b) && script[k] == Load(p, va)
    requires SparedFrom(script, i + 1, k, p, va)
    ensures var replies := EagerRun(w, script, enough).1;
            && |replies| == |script|
            && (Stopped !in replies[..k] && replies[i] == Done ==> replies[k] == Byte(b))
  {
    var replies := EagerRun(w, script, enough).1;
    ReplyCount(w, script, enough);
    hide EagerRun, EagerStep, Answer, After;
    if Stopped !in replies[..k] && replies[i] == Done {
      StoredAt(w, script, enough, i, k, p, va, b);
      RunSpares(w, script, enough, i + 1, k, p, va);
      LoadAt(w, script, enough, k, p, va);
    }
  }

  lemma StoredAt(w: System, script: seq<Request>, enough: seq<bool>, i: nat, k: nat, p: nat, va: nat, b: int)
    requires |enough| == |script| && i < k < |script| && script[i] == Store(p, va, b)
    requires var replies := EagerRun(w, script, enough).1;
             |replies| == |script| && Stopped !in replies[..k] && replies[i] == Done
    ensures Answer(After(w, script, enough, i + 1), p, va) == Byte(b)
  {
    var replies := EagerRun(w, script, enough).1;
    assert forall x :: x in replies[..i] ==> x in replies[..k];
    hide EagerRun, EagerStep, Answer, After;
    ReplyAt(w, script, enough, i);
    StoreIsRead(After(w, script, enough, i), p, va, b, enough[i], p, va);
  }

  lemma LoadAt(w: System, script: seq<Request>, enough: seq<bool>, k: nat, p: nat, va: nat)
    requires |enough| == |script| && k < |script| && script[k] == Load(p, va)
    requires |EagerRun(w, script, enough).1| == |script| && Stopped !in EagerRun(w, script, enough).1[..k]
    ensures EagerRun(w, script, enough).1[k] == Answer(After(w, script, enough, k), p, va)
  {
    hide EagerRun, EagerStep, Answer, After;
    ReplyAt(w, script, enough, k);
    LoadLooks(After(w, script, enough, k), p, va, enough[k]);
  }

  /** Copy on write cannot be seen: a child loads what its parent had stored before the fork,
      though the parent, or anybody else, may have stored there since. */
  lemma ChildReads(w: System, script: seq<Request>, enough: seq<bool>, i: nat, f: nat, k: nat, p: nat, c: nat, va: nat,
                   b: int)
    requires |enough| == |script| && i < f < k < |script| && script[i] == Store(p, va, b)
    requires script[f] == Fork(p, c) && script[k] == Load(c, va)
    requires SparedFrom(script, i + 1, f, p, va) && SparedFrom(script, f + 1, k, c, va)
    ensures var replies := EagerRun(w, script, enough).1;
            && |replies| == |script|
            && (Stopped !in replies[..k] && replies[i] == replies[f] == Done ==> replies[k] == Byte(b))
  {
    var replies := EagerRun(w, script, enough).1;
    ReplyCount(w, script, enough);
    hide EagerRun, EagerStep, Answer, After;
    if Stopped !in replies[..k] && replies[i] == replies[f] == Done {
      assert forall x :: x in replies[..f] ==> x in replies[..k];
      StoredAt(w, script, enough, i, k, p, va, b);
      RunSpares(w, script, enough, i + 1, f, p, va);
      ReplyAt(w, script, enough, f);
      ForkCopies(After(w, script, enough, f), p, c, enough[f], c, va);
      RunSpares(w, script, enough, f + 1, k, c, va);
      LoadAt(w, script, enough, k, c, va);
    }
  }

  /** In no run does a process have a page past its size. */
  lemma NothingPastKept(w: System, r: Request, e: bool)
    requires NothingPast(w)
    ensures NothingPast(EagerStep(w, r, e).0)
  {
    var w1 := EagerStep(w, r, e).0;
    forall p, va: nat | p in w1.users && va >= RoundUp(w1.users[p].sz) ensures Answer(w1, p, va) == Stopped {
      PastAt(w, r, e, p, va);
    }
  }

  lemma PastAt(w: System, r: Request, e: bool, p: nat, va: nat)
    requires NothingPast(w)
    requires var w1 := EagerStep(w, r, e).0; p in w1.users && va >= RoundUp(w1.users[p].sz)
    ensures Answer(EagerStep(w, r, e).0, p, va) == Stopped
  {
    match r
    case Grow(q, n) =>
      if q in w.users {
        GrowLoads(w, q, n, e, p, va);
        assert p in w.users && (va >= RoundUp(w.users[p].sz) ==> Answer(w, p, va) == Stopped);
      }
    case Fork(q, c) =>
      ForkCopies(w, q, c, e, p, va);
    case Store(q, vb, b) =>
      StoreIsRead(w, q, vb, b, e, p, va);
    case Reap(q) =>
      ReapForgets(w, q, e, p, va);
    case _ =>
      assert EagerStep(w, r, e).0.users == w.users && Answer(w, p, va) == Stopped;
  }

  lemma {:induction false} RunNothingPast(w: System, script: seq<Request>, enough: seq<bool>)
    requires |enough| == |script| && NothingPast(w)
    ensures NothingPast(EagerRun(w, script, enough).0)
    decreases |script|
  {
    hide EagerStep, NothingPast;
    if script != [] {
      var last := |script| - 1;
      RunNothingPast(w, script[..last], enough[..last]);
      NothingPastKept(EagerRun(w, script[..last], enough[..last]).0, script[last], enough[last]);
    }
  }
}
