/**
 Processes over copy-on-write memory, against a reference in which fork copies
 eagerly: every process has private pages, and nothing is shared. Requests are
 atomic. Whether memory sufficed for a request is an input to the reference; it
 does whenever the machine has the frames that private copies would take.
*/
module Processes {
  import opened Common
  import opened Rmap
  import opened VmCount
  import opened VmModel
  import opened VmSteps
  import opened Vm

  // ---------- the reference ----------

  /** A process's memory: p->sz and its pages. */
  datatype ImageOf<T> = Image(sz: nat, pages: T)

  type Image = ImageOf<map<nat, PageData>>

  type Users = map<nat, Image>

  type Int32 = n: int | -0x8000_0000 <= n < 0x8000_0000

  datatype Request =
    | Fork(parent: nat, child: nat)
    | Grow(pid: nat, n: Int32)
    | Reap(pid: nat)
    | Load(pid: nat, va: nat)
    | Store(pid: nat, va: nat, b: int)
    | OpenPipe(id: nat)
    | ClosePipe(id: nat)

  /** What the processes have, and which pipes there are. */
  datatype System = System(users: Users, pipes: set<nat>)

  /** Starved is a store that faults for want of a frame; Stopped is a request the
      kernel panics on, or that no process can make. */
  datatype Reply = Done | Byte(b: int) | MinusOne | Starved | Stopped

  predicate Full(img: Image) {
    forall v :: 0 <= v < Pages(img.sz) ==> v in img.pages
  }

  /** growproc, with the source's 32-bit sizes: a shrink below zero wraps around and
      does nothing, and a shrink to zero drops the pages but reports failure. */
  function EagerGrow(img: Image, n: Int32, enough: bool): (Image, Reply) {
    var sz := img.sz;
    if n > 0 then
      if sz + n >= KERNBASE || !enough then (img, MinusOne)
      else (Image(sz + n, AddZeros(img.pages, Pages(sz), Pages(sz + n))), Done)
    else if n < 0 && sz + n >= 0 then
      var pages := DropRange(img.pages, Pages(sz + n), Pages(sz));
      if sz + n == 0 then (Image(sz, pages), MinusOne) else (Image(sz + n, pages), Done)
    else (img, if sz == 0 && n < 0 then MinusOne else Done)
  }

  predicate Maps(u: Users, p: nat, va: nat) {
    p in u && va / PGSIZE in u[p].pages
  }

  function ByteAt(u: Users, p: nat, va: nat): int
    requires Maps(u, p, va)
  {
    u[p].pages[va / PGSIZE][va % PGSIZE]
  }

  function WithByte(u: Users, p: nat, va: nat, b: int): Users
    requires Maps(u, p, va)
  {
    var pages := u[p].pages;
    u[p := Image(u[p].sz, pages[va / PGSIZE := pages[va / PGSIZE][va % PGSIZE := b]])]
  }

  function EagerStep(w: System, r: Request, enough: bool): (System, Reply) {
    var u := w.users;
    match r
    case Fork(p, c) =>
      if p !in u || c in u || !Full(u[p]) then (w, Stopped)
      else if |u| >= NPROC || !enough then (w, MinusOne)
      else (w.(users := u[c := u[p]]), Done)
    case Grow(p, n) =>
      if p !in u then (w, Stopped)
      else var (img, reply) := EagerGrow(u[p], n, enough); (w.(users := u[p := img]), reply)
    case Reap(p) =>
      if p !in u then (w, Stopped) else (w.(users := u - {p}), Done)
    case Load(p, va) =>
      if !Maps(u, p, va) then (w, Stopped)
      else (w, Byte(ByteAt(u, p, va)))
    case Store(p, va, b) =>
      if !Maps(u, p, va) then (w, Stopped)
      else if !enough then (w, Starved)
      else (w.(users := WithByte(u, p, va, b)), Done)
    case OpenPipe(id) =>
      if id in w.pipes then (w, Stopped)
      else if !enough then (w, MinusOne)
      else (w.(pipes := w.pipes + {id}), Done)
    case ClosePipe(id) =>
      if id !in w.pipes then (w, Stopped) else (w.(pipes := w.pipes - {id}), Done)
  }

  /** Requests one after another; a stopped kernel answers nothing more. */
  function EagerRun(w: System, script: seq<Request>, enough: seq<bool>): (System, seq<Reply>)
    requires |enough| == |script|
  {
    if script == [] then (w, []) else
      var last := |script| - 1;
      var (w1, replies) := EagerRun(w, script[..last], enough[..last]);
      if Stopped in replies then (w1, replies + [Stopped])
      else
        var (w2, reply) := EagerStep(w1, script[last], enough[last]);
        (w2, replies + [reply])
  }

  /** So many free frames are always enough for a request. */
  function Needs(u: Users, r: Request): nat {
    match r
    case Fork(p, _) => |KSLOTS| + 2 + if p in u then Pages(u[p].sz) else 0
    case Grow(p, n) => if p in u && n > 0 then 2 * (Pages(u[p].sz + n) - Pages(u[p].sz)) else 0
    case Reap(_) => 0
    case Load(_, _) => 0
    case Store(_, _, _) => 1
    case OpenPipe(_) => 1
    case ClosePipe(_) => 0
  }

  /** The pages of all processes, as if none were shared. */
  ghost function UserPages<T>(u: map<nat, ImageOf<map<nat, T>>>): set<(nat, nat)> {
    set p, v | p in u && v in u[p].pages :: (p, v)
  }

  /** The system never takes more frames than these beside the kernel's image: each process
      has a stack, a directory, its tables and its pages, and each pipe a page. */
  ghost function Demand(w: System): nat {
    |w.users| * (NPTENTRIES + 2) + |UserPages(w.users)| + |w.pipes|
  }

  // ---------- the process table over the page directories ----------

  datatype Proc = Proc(pgdir: nat, sz: nat)

  /** Each process has a directory to itself, and no page beyond its size. */
  ghost predicate TableInv<T>(procs: map<nat, Proc>, abs: map<nat, map<nat, T>>) {
    && (forall p :: p in procs ==> procs[p].pgdir in abs && procs[p].sz < KERNBASE)
    && OwnDirs(procs)
    && (forall p :: p in procs ==> Within(abs[procs[p].pgdir], procs[p].sz))
    && |abs| == |procs| <= NPROC
  }

  ghost predicate OwnDirs(procs: map<nat, Proc>) {
    forall p, q :: p in procs && q in procs && procs[p].pgdir == procs[q].pgdir ==> p == q
  }

  ghost predicate Within<T>(pages: map<nat, T>, sz: nat) {
    forall v :: v in pages ==> v < Pages(sz)
  }

  ghost function UsersOf<T>(procs: map<nat, Proc>, abs: map<nat, map<nat, T>>): map<nat, ImageOf<map<nat, T>>>
    requires TableInv(procs, abs)
  {
    map p | p in procs :: Image(procs[p].sz, abs[procs[p].pgdir])
  }

  // ---------- how many frames are free ----------

  lemma BootIs(mem: seq<Content>, kernel: nat)
    requires |mem| >= kernel && forall f :: 0 <= f < |mem| ==> mem[f] == if f < kernel then Kernel(Boot) else Free
    ensures KeptRight(mem, map[], map[], kernel)
  {
    RangeIs(0, kernel);
    RangeSize(0, kernel);
    assert BootFrames(mem) == Range(0, kernel);
    assert StackFrames(mem) == {} && PipeFrames(mem) == {};
  }

  lemma NobodyYet(m: Machine)
    requires m.space == map[]
    ensures Abs(m) == map[] && TableInv(map[], Abs(m)) && UsersOf(map[], Abs(m)) == map[]
  {
  }

  /** The process whose directory is d. */
  ghost function WhoseDir(procs: map<nat, Proc>, d: nat): nat {
    if exists p :: p in procs && procs[p].pgdir == d then (var p :| p in procs && procs[p].pgdir == d; p) else 0
  }

  lemma EveryDirOwned<T>(procs: map<nat, Proc>, abs: map<nat, map<nat, T>>, d: nat)
    requires TableInv(procs, abs) && d in abs
    ensures var p := WhoseDir(procs, d); p in procs && procs[p].pgdir == d
  {
    var dirs := map p | p in procs :: procs[p].pgdir;
    assert dirs.Keys == procs.Keys;
    var p := OneToOneOnto(procs.Keys, dirs, abs.Keys, d);
  }

  lemma MappingsAreUsers<T>(procs: map<nat, Proc>, abs: map<nat, map<nat, T>>)
    requires TableInv(procs, abs)
    ensures |Mappings(abs)| <= |UserPages(UsersOf(procs, abs))|
  {
    var f := map x | x in Mappings(abs) :: (WhoseDir(procs, x.0), x.1);
    forall x | x in Mappings(abs)
      ensures f[x] in UserPages(UsersOf(procs, abs)) && f[x].0 in procs && procs[f[x].0].pgdir == x.0
    {
      EveryDirOwned(procs, abs, x.0);
    }
    hide TableInv;
    OneToOneSize(Mappings(abs), f, UserPages(UsersOf(procs, abs)));
  }

  /** No frame is lost: those in use are as many as the uses. */
  lemma FramesExact(m: Machine, procs: map<nat, Proc>, kstack: map<nat, nat>, pipes: map<nat, nat>, kernel: nat)
    requires Inv(m, {}) && TableInv(procs, Abs(m)) && KeptRight(m.mem, kstack, pipes, kernel)
    requires kstack.Keys == procs.Keys
    ensures |m.mem| == |m.free| + kernel + 2 * |procs| + |pipes| + |m.owner| + |PageFrames(m.mem)|
  {
    hide Inv, KeptRight, PageFrames;
    FramesCounted(m);
    KernelCounted(m.mem, kstack, pipes, kernel);
    AbsKeys(m);
    assert |Abs(m)| == |m.space|;
  }

  /** Sharing never costs frames: there are as many free as there would be with copies. */
  lemma FramesLeft(m: Machine, procs: map<nat, Proc>, kstack: map<nat, nat>, pipes: map<nat, nat>, kernel: nat)
    requires Inv(m, {}) && TableInv(procs, Abs(m)) && KeptRight(m.mem, kstack, pipes, kernel)
    requires kstack.Keys == procs.Keys
    ensures |m.mem| <= |m.free| + kernel + Demand(System(UsersOf(procs, Abs(m)), pipes.Keys))
  {
    FramesExact(m, procs, kstack, pipes, kernel);
    hide Inv, KeptRight, PageFrames, UserPages, Mappings;
    TablesAtMost(m);
    PagesAtMost(m);
    MappingsAreUsers(procs, Abs(m));
    SameProcs(procs, Abs(m));
    AbsKeys(m);
    assert |Abs(m)| == |m.space|;
  }

  lemma KeptSame(m: Machine, n: Machine, kstack: map<nat, nat>, pipes: map<nat, nat>, kernel: nat)
    requires KeptRight(m.mem, kstack, pipes, kernel) && SameBut(m, n)
    ensures KeptRight(n.mem, kstack, pipes, kernel)
  {
    hide KeptRight;
    KeptStill(m.mem, n.mem, kstack, pipes, kernel);
  }

  /** With a directory per process, no frame has more holders than there are processes. */
  lemma FewHolders(m: Machine, loose: set<nat>, f: nat)
    requires Inv(m, loose) && f < |m.rm|
    ensures |m.rm[f]| <= |m.space|
  {
    forall d | d in m.rm[f] ensures d in m.space { assert HeldBy(m.at, m.space, f, d); }
    hide Inv;
    DistinctHolders(m, loose, f);
    DistinctSize(m.rm[f]);
    SubsetSize(Elements(m.rm[f]), m.space.Keys);
  }

  lemma DistinctHolders(m: Machine, loose: set<nat>, f: nat)
    requires Inv(m, loose) && f < |m.rm|
    ensures Distinct(m.rm[f])
  {
  }

  lemma OneMore<T>(a: map<nat, T>, k: nat, x: T)
    requires k !in a
    ensures |a[k := x]| == |a| + 1
  {
    assert a[k := x].Keys == a.Keys + {k};
    assert |a.Keys + {k}| == |a.Keys| + 1;
  }

  lemma OneLess<T>(a: map<nat, T>, k: nat)
    requires k in a
    ensures |a - {k}| == |a| - 1
  {
    assert (a - {k}).Keys == a.Keys - {k};
    assert |a.Keys - {k}| == |a.Keys| - 1;
  }

  lemma TablePut<T>(procs: map<nat, Proc>, abs: map<nat, map<nat, T>>, p: nat, pages: map<nat, T>, sz: nat)
    requires TableInv(procs, abs) && p in procs && Within(pages, sz) && sz < KERNBASE
    ensures TableInv(procs[p := Proc(procs[p].pgdir, sz)], abs[procs[p].pgdir := pages])
  {
    hide Within;
    assert abs[procs[p].pgdir := pages].Keys == abs.Keys;
    assert procs[p := Proc(procs[p].pgdir, sz)].Keys == procs.Keys;
  }

  lemma UsersPut<T>(procs: map<nat, Proc>, abs: map<nat, map<nat, T>>, p: nat, pages: map<nat, T>, sz: nat)
    requires TableInv(procs, abs) && p in procs && Within(pages, sz) && sz < KERNBASE
    ensures var procs', abs' := procs[p := Proc(procs[p].pgdir, sz)], abs[procs[p].pgdir := pages];
            TableInv(procs', abs') && UsersOf(procs', abs') == UsersOf(procs, abs)[p := Image(sz, pages)]
  {
    TablePut(procs, abs, p, pages, sz);
    hide Within;
  }

  lemma TableAdd<T>(procs: map<nat, Proc>, abs: map<nat, map<nat, T>>, c: nat, d: nat, pages: map<nat, T>, sz: nat)
    requires TableInv(procs, abs) && c !in procs && d !in abs && Within(pages, sz) && sz < KERNBASE && |procs| < NPROC
    ensures TableInv(procs[c := Proc(d, sz)], abs[d := pages])
  {
    hide Within;
    OneMore(procs, c, Proc(d, sz));
    OneMore(abs, d, pages);
  }

  lemma UsersWith<T>(procs: map<nat, Proc>, abs: map<nat, map<nat, T>>, c: nat, d: nat, pages: map<nat, T>, sz: nat)
    requires TableInv(procs, abs) && c !in procs && d !in abs
    requires TableInv(procs[c := Proc(d, sz)], abs[d := pages])
    ensures UsersOf(procs[c := Proc(d, sz)], abs[d := pages]) == UsersOf(procs, abs)[c := Image(sz, pages)]
  {
    hide Within, OwnDirs;
  }

  lemma UsersAdd<T>(procs: map<nat, Proc>, abs: map<nat, map<nat, T>>, c: nat, d: nat, pages: map<nat, T>, sz: nat)
    requires TableInv(procs, abs) && c !in procs && d !in abs && Within(pages, sz) && sz < KERNBASE && |procs| < NPROC
    ensures var procs', abs' := procs[c := Proc(d, sz)], abs[d := pages];
            TableInv(procs', abs') && UsersOf(procs', abs') == UsersOf(procs, abs)[c := Image(sz, pages)]
  {
    hide TableInv, UsersOf, Within;
    TableAdd(procs, abs, c, d, pages, sz);
    UsersWith(procs, abs, c, d, pages, sz);
  }

  lemma TableDrop<T>(procs: map<nat, Proc>, abs: map<nat, map<nat, T>>, p: nat)
    requires TableInv(procs, abs) && p in procs
    ensures TableInv(procs - {p}, abs - {procs[p].pgdir})
  {
    hide Within;
    OneLess(procs, p);
    OneLess(abs, procs[p].pgdir);
  }

  lemma UsersDrop<T>(procs: map<nat, Proc>, abs: map<nat, map<nat, T>>, p: nat)
    requires TableInv(procs, abs) && p in procs
    ensures TableInv(procs - {p}, abs - {procs[p].pgdir})
    ensures UsersOf(procs - {p}, abs - {procs[p].pgdir}) == UsersOf(procs, abs) - {p}
  {
    TableDrop(procs, abs, p);
    hide Within;
  }

  lemma ForkReady(procs: map<nat, Proc>, m: Machine, p: nat)
    requires Inv(m, {}) && TableInv(procs, Abs(m)) && p in procs && |procs| < NPROC
    requires Full(UsersOf(procs, Abs(m))[p])
    ensures procs[p].pgdir in m.space
    ensures forall u :: 0 <= u < Pages(procs[p].sz) ==> CanShare(m, procs[p].pgdir, u)
  {
    hide Inv, Abs, PagesOf;
    var d := procs[p].pgdir;
    AbsKeys(m);
    PagesAbs(m, d);
    assert |m.space| == |Abs(m)|;
    forall u | 0 <= u < Pages(procs[p].sz) ensures CanShare(m, d, u) {
      assert u in PagesOf(m, d);
      MappedHasTable(m, {}, d, u);
      FewHolders(m, {}, m.space[d][u].frame);
    }
  }

  lemma SameThen(a: Machine, b: Machine, c: Machine)
    requires SameBut(a, b) && SameBut(b, c)
    ensures SameBut(a, c)
  {
  }

  lemma SameUseItself(m: Machine)
    ensures SameUse(m, m)
  {
  }

  lemma SameUseKernel(m: Machine, n: Machine, k: nat)
    requires SameUse(m, n) && k < |m.mem| && m.mem[k].Kernel?
    ensures k < |n.mem| && n.mem[k] == m.mem[k] && Abs(n) == Abs(m)
  {
  }

  /** Taking a kernel stack and giving it back leaves the same frames in the same use. */
  lemma ForkUndone(m: Machine, m1: Machine, m2: Machine, n: Machine, k: nat, c: nat)
    requires k < |m.mem| && m.mem[k].Free? && m1.mem == m.mem[k := Kernel(Stack(c))]
    requires m1.space == m.space && m1.owner == m.owner && m1.rm == m.rm && Abs(m1) == Abs(m)
    requires SameUse(m1, m2) && n.mem == m2.mem[k := Free] && Abs(n) == Abs(m2)
    requires n.space == m2.space && n.owner == m2.owner && n.rm == m2.rm
    ensures SameUse(m, n) && SameBut(m, n)
  {
    hide Abs;
  }

  lemma ForkDone(procs: map<nat, Proc>, m: Machine, n: Machine, p: nat, c: nat, e: nat)
    requires TableInv(procs, Abs(m)) && p in procs && c !in procs && |procs| < NPROC && e !in m.space
    requires procs[p].pgdir in m.space
    requires Abs(n) == Abs(m)[e := TakePages(PagesOf(m, procs[p].pgdir), Pages(procs[p].sz))]
    ensures var procs' := procs[c := Proc(e, procs[p].sz)];
            && TableInv(procs', Abs(n))
            && UsersOf(procs', Abs(n)) == UsersOf(procs, Abs(m))[c := UsersOf(procs, Abs(m))[p]]
  {
    hide Abs, PagesOf;
    var d, sz := procs[p].pgdir, procs[p].sz;
    AbsKeys(m);
    PagesAbs(m, d);
    assert Within(Abs(m)[d], sz);
    assert TakePages(Abs(m)[d], Pages(sz)) == Abs(m)[d];
    UsersAdd(procs, Abs(m), c, e, Abs(m)[d], sz);
  }

  lemma FirstDone(procs: map<nat, Proc>, m: Machine, n: Machine, p: nat, d: nat, page: PageData)
    requires TableInv(procs, Abs(m)) && p !in procs && |procs| < NPROC && d !in Abs(m)
    requires Abs(n) == Abs(m)[d := OnePage(page)]
    ensures var procs' := procs[p := Proc(d, PGSIZE)];
            && TableInv(procs', Abs(n))
            && UsersOf(procs', Abs(n)) == UsersOf(procs, Abs(m))[p := Image(PGSIZE, OnePage(page))]
  {
    hide Abs;
    assert Within(OnePage(page), PGSIZE);
    UsersAdd(procs, Abs(m), p, d, OnePage(page), PGSIZE);
  }

  lemma OneProc(procs: map<nat, Proc>, m: Machine, p: nat)
    requires TableInv(procs, Abs(m)) && p in procs
    ensures var d := procs[p].pgdir;
            && d in m.space && p in UsersOf(procs, Abs(m))
            && UsersOf(procs, Abs(m))[p] == Image(procs[p].sz, PagesOf(m, d))
            && Within(m.space[d], procs[p].sz) && procs[p].sz < KERNBASE
            && PagesOf(m, d).Keys == m.space[d].Keys
  {
    AbsKeys(m);
    PagesAbs(m, procs[p].pgdir);
  }

  lemma GrownWithin(procs: map<nat, Proc>, m: Machine, n: Machine, p: nat, sz: nat)
    requires TableInv(procs, Abs(m)) && p in procs && procs[p].sz <= sz < KERNBASE
    requires Grown(m, n, procs[p].pgdir, Pages(procs[p].sz), Pages(sz))
    ensures SameBut(m, n)
    ensures var procs', img := procs[p := Proc(procs[p].pgdir, sz)], UsersOf(procs, Abs(m))[p];
            && TableInv(procs', Abs(n))
            && UsersOf(procs', Abs(n))
                 == UsersOf(procs, Abs(m))[p := Image(sz, AddZeros(img.pages, Pages(img.sz), Pages(sz)))]
  {
    var lo, hi := Pages(procs[p].sz), Pages(sz);
    OneProc(procs, m, p);
    AddedZeros(PagesOf(m, procs[p].pgdir), lo, hi);
    hide Abs, PagesOf, AddZeros;
    UsersPut(procs, Abs(m), p, AddZeros(PagesOf(m, procs[p].pgdir), lo, hi), sz);
  }

  lemma ShrunkWithin(procs: map<nat, Proc>, m: Machine, n: Machine, p: nat, newsz: nat, sz: nat)
    requires TableInv(procs, Abs(m)) && p in procs && newsz <= procs[p].sz && (sz == newsz || sz == procs[p].sz)
    requires Dropped(m, n, procs[p].pgdir, Pages(newsz), Pages(procs[p].sz))
    ensures SameBut(m, n)
    ensures var procs', img := procs[p := Proc(procs[p].pgdir, sz)], UsersOf(procs, Abs(m))[p];
            && TableInv(procs', Abs(n))
            && UsersOf(procs', Abs(n))
                 == UsersOf(procs, Abs(m))[p := Image(sz, DropRange(img.pages, Pages(newsz), Pages(img.sz)))]
  {
    var lo, hi := Pages(newsz), Pages(procs[p].sz);
    OneProc(procs, m, p);
    assert Within(DropRange(PagesOf(m, procs[p].pgdir), lo, hi), sz);
    hide Abs, PagesOf, DropRange;
    UsersPut(procs, Abs(m), p, DropRange(PagesOf(m, procs[p].pgdir), lo, hi), sz);
  }

  lemma SameProcs<T>(procs: map<nat, Proc>, abs: map<nat, map<nat, T>>)
    requires TableInv(procs, abs)
    ensures UsersOf(procs, abs).Keys == procs.Keys && |UsersOf(procs, abs)| == |procs|
  {
  }

  /** Every refusal so far is for want of frames. */
  ghost predicate Refused(frames: nat, kernel: nat, w0: System, script: seq<Request>, enough: seq<bool>)
    requires |enough| == |script|
  {
    forall i :: 0 <= i < |script| && !enough[i] ==>
      var w := EagerRun(w0, script[..i], enough[..i]).0;
      frames < kernel + Demand(w) + Needs(w.users, script[i])
  }

  lemma RefusedNext(frames: nat, kernel: nat, w0: System, script: seq<Request>, enough: seq<bool>)
    requires |enough| == |script| > 0
    requires var i := |script| - 1;
             && Refused(frames, kernel, w0, script[..i], enough[..i])
             && (!enough[i] ==>
                   var w := EagerRun(w0, script[..i], enough[..i]).0;
                   frames < kernel + Demand(w) + Needs(w.users, script[i]))
    ensures Refused(frames, kernel, w0, script, enough)
  {
    hide EagerRun, Demand, Needs;
    var n := |script| - 1;
    forall i | 0 <= i < n ensures script[..n][..i] == script[..i] && enough[..n][..i] == enough[..i] {
    }
  }

  class Processes {
    const vm: Vm
    /** The frames of the kernel's image. */
    const kernel: nat
    var procs: map<nat, Proc>
    /** Each process's kernel stack, and each pipe's page. */
    var kstack: map<nat, nat>
    var pipes: map<nat, nat>

    ghost predicate Memory()
      reads this, vm, vm.rmap, vm.rmap.node
    {
      vm.Valid({}) && TableInv(procs, Abs(vm.M()))
    }

    ghost predicate Valid()
      reads this, vm, vm.rmap, vm.rmap.node
    {
      Memory() && KeptRight(vm.mem, kstack, pipes, kernel) && kstack.Keys == procs.Keys
    }

    ghost function Users(): Users
      requires Memory()
      reads this, vm, vm.rmap, vm.rmap.node
    {
      UsersOf(procs, Abs(vm.M()))
    }

    ghost function Sys(): System
      requires Memory()
      reads this, vm, vm.rmap, vm.rmap.node
    {
      System(Users(), pipes.Keys)
    }

    constructor (frames: nat, kernel: nat)
      requires 0 < kernel <= frames
      ensures Valid() && Sys() == System(map[], {}) && fresh(vm) && fresh(vm.rmap) && fresh(vm.rmap.node)
      ensures this.kernel == kernel && |vm.mem| == frames
    {
      hide Inv, KeptRight, Abs, TableInv, UsersOf;
      vm := new Vm(frames, kernel);
      this.kernel := kernel;
      procs, kstack, pipes := map[], map[], map[];
      new;
      BootIs(vm.mem, kernel);
      NobodyYet(vm.M());
    }

    /** userinit: the first process holds the initial program in its one page. */
    method UserInit(p: nat, init: seq<int>) returns (ok: bool)
      requires Valid() && p !in procs && |procs| < NPROC && |init| < PGSIZE
      modifies this, vm, vm.rmap, vm.rmap.node
      ensures ok ==> Valid() && |vm.mem| == |old(vm.mem)|
      ensures ok ==> Sys() == old(Sys()).(users := old(Users())[p := Image(PGSIZE, OnePage(Padded(init, |init|)))])
      ensures !ok ==> |old(vm.free)| < |KSLOTS| + 4
    {
      hide Inv, Abs, TableInv, UsersOf, KeptRight, Padded, OnePage, KSLOTS;
      ghost var m0 := vm.M();
      var k := vm.TakeKernel(Stack(p));
      if k == 0 { return false; }
      ghost var m := vm.M();
      StackTaken(m0.mem, kstack, pipes, kernel, k, p);
      ok := FirstMemory(p, init);
      if !ok { return; }
      kstack := kstack[p := k];
      KeptSame(m, vm.M(), kstack, pipes, kernel);
    }

    method FirstMemory(p: nat, init: seq<int>) returns (ok: bool)
      requires Memory() && p !in procs && |procs| < NPROC && |init| < PGSIZE
      modifies this`procs, vm, vm.rmap, vm.rmap.node
      ensures ok ==> Memory() && Users() == old(Users())[p := Image(PGSIZE, OnePage(Padded(init, |init|)))]
      ensures ok ==> SameBut(old(vm.M()), vm.M()) && procs.Keys == old(procs.Keys) + {p}
      ensures !ok ==> |old(vm.free)| < |KSLOTS| + 3
    {
      hide Inv, Abs, PagesOf, KSLOTS, TableInv, UsersOf, Padded, OnePage, SameBut, HasSlots;
      ghost var m := vm.M();
      AbsKeys(m);
      var d := vm.SetupKvm();
      if d == 0 { return false; }
      ghost var m1 := vm.M();
      ok := vm.InitUvm(d, init);
      if !ok { return; }
      SameThen(m, m1, vm.M());
      FirstDone(procs, m, vm.M(), p, d, Padded(init, |init|));
      procs := procs[p := Proc(d, PGSIZE)];
    }

    /** fork: the child gets a kernel stack and the parent's memory, or nothing changes and
        the same frames are free. */
    method DoFork(p: nat, c: nat) returns (reply: Reply)
      requires Valid() && p in procs && c !in procs && Full(Users()[p])
      modifies this, vm, vm.rmap, vm.rmap.node
      ensures Valid() && |vm.mem| == |old(vm.mem)|
      ensures reply == Done ==>
                |old(procs)| < NPROC && Sys() == old(Sys()).(users := old(Users())[c := old(Users())[p]])
      ensures reply != Done ==> reply == MinusOne && Sys() == old(Sys()) && SameUse(old(vm.M()), vm.M())
      ensures reply != Done && |old(procs)| < NPROC ==> |old(vm.free)| < Needs(old(Users()), Fork(p, c))
    {
      hide Inv, Abs, TableInv, UsersOf, Full, KeptRight, KSLOTS, SameUse;
      ghost var m := vm.M();
      OneProc(procs, m, p);
      SameUseItself(m);
      if |procs| >= NPROC { return MinusOne; }
      var k := vm.TakeKernel(Stack(c));
      if k == 0 { return MinusOne; }
      ghost var m1 := vm.M();
      StackTaken(m.mem, kstack, pipes, kernel, k, c);
      reply := ForkMemory(p, c);
      ghost var m2 := vm.M();
      if reply == Done {
        KeptSame(m1, m2, kstack[c := k], pipes, kernel);
        kstack := kstack[c := k];
      } else {
        SameUseKernel(m1, m2, k);
        vm.GiveKernel(k);
        ForkUndone(m, m1, m2, vm.M(), k, c);
        KeptSame(m, vm.M(), kstack, pipes, kernel);
      }
    }

    method ForkMemory(p: nat, c: nat) returns (reply: Reply)
      requires Memory() && p in procs && c !in procs && Full(Users()[p]) && |procs| < NPROC
      modifies this`procs, vm, vm.rmap, vm.rmap.node
      ensures Memory() && SameBut(old(vm.M()), vm.M())
      ensures reply == Done ==> Users() == old(Users())[c := old(Users())[p]] && procs.Keys == old(procs.Keys) + {c}
      ensures reply != Done ==> reply == MinusOne && procs == old(procs) && SameUse(old(vm.M()), vm.M())
      ensures reply != Done ==> |old(vm.free)| < |KSLOTS| + 1 + Pages(old(procs)[p].sz)
    {
      hide Inv, Abs, PagesOf, CanShare, KSLOTS, TableInv, Full, UsersOf, TakePages;
      ghost var m := vm.M();
      OneProc(procs, m, p);
      var d, sz := procs[p].pgdir, procs[p].sz;
      ForkReady(procs, m, p);
      var e := vm.CopyUvm(d, sz);
      if e == 0 {
        reply := MinusOne;
      } else {
        ForkDone(procs, m, vm.M(), p, c, e);
        procs := procs[c := Proc(e, sz)];
        reply := Done;
      }
    }

    /** growproc. */
    method DoGrow(p: nat, n: Int32) returns (reply: Reply, ghost enough: bool)
      requires Memory() && p in procs
      modifies this`procs, vm, vm.rmap, vm.rmap.node
      ensures Memory() && p in old(Users()) && SameBut(old(vm.M()), vm.M()) && procs.Keys == old(procs.Keys)
      ensures Users() == old(Users())[p := EagerGrow(old(Users())[p], n, enough).0]
      ensures reply == EagerGrow(old(Users())[p], n, enough).1
      ensures !enough ==> |old(vm.free)| < Needs(old(Users()), Grow(p, n))
    {
      hide Inv, Abs, PagesOf, TableInv, UsersOf, AddZeros, DropRange, Grown, Dropped, SameBut;
      ghost var m := vm.M();
      SameAsItself(m);
      OneProc(procs, m, p);
      var d, sz := procs[p].pgdir, procs[p].sz;
      assert Users()[p := Users()[p]] == Users();
      enough := true;
      reply := Done;
      if n > 0 {
        var newsz := vm.AllocUvm(d, sz, sz + n);
        if newsz == 0 {
          enough := sz + n >= KERNBASE;
          return MinusOne, enough;
        }
        GrownWithin(procs, m, vm.M(), p, newsz);
        procs := procs[p := Proc(d, newsz)];
      } else if n < 0 {
        var newsz := vm.DeallocUvm(d, sz, (sz + n) % 0x1_0000_0000, {});
        if newsz == 0 && sz > 0 {
          ShrunkWithin(procs, m, vm.M(), p, newsz, sz);
          assert procs[p := Proc(d, sz)] == procs;
          return MinusOne, true;
        }
        if newsz == 0 { return MinusOne, true; }
        if sz + n >= 0 {
          ShrunkWithin(procs, m, vm.M(), p, newsz, newsz);
        }
        assert sz + n < 0 ==> procs[p := Proc(d, newsz)] == procs;
        procs := procs[p := Proc(d, newsz)];
      }
    }

    /** exit and wait: the kernel stack, the directory and its pages go; the others' stay. */
    method DoReap(p: nat)
      requires Valid() && p in procs
      modifies this, vm, vm.rmap, vm.rmap.node
      ensures Valid() && Sys() == old(Sys()).(users := old(Users()) - {p}) && |vm.mem| == |old(vm.mem)|
    {
      hide Inv, Abs, TableInv, UsersOf, KeptRight;
      StackGiven(vm.mem, kstack, pipes, kernel, p);
      vm.GiveKernel(kstack[p]);
      kstack := kstack - {p};
      ghost var m := vm.M();
      ReapMemory(p);
      KeptSame(m, vm.M(), kstack, pipes, kernel);
    }

    method ReapMemory(p: nat)
      requires Memory() && p in procs
      modifies this`procs, vm, vm.rmap, vm.rmap.node
      ensures Memory() && Users() == old(Users()) - {p} && SameBut(old(vm.M()), vm.M())
      ensures procs.Keys == old(procs.Keys) - {p}
    {
      hide Inv, Abs, PagesOf, TableInv, UsersOf, SameBut;
      ghost var m := vm.M();
      OneProc(procs, m, p);
      UsersDrop(procs, Abs(m), p);
      vm.FreeVm(procs[p].pgdir);
      procs := procs - {p};
    }

    method DoLoad(p: nat, va: nat) returns (b: int)
      requires Memory() && p in procs && Maps(Users(), p, va)
      ensures Memory() && Maps(Users(), p, va) && b == Users()[p].pages[va / PGSIZE][va % PGSIZE]
    {
      hide Inv, Abs, PagesOf, TableInv, UsersOf;
      OneProc(procs, vm.M(), p);
      b := vm.Load(procs[p].pgdir, va);
    }

    method DoStore(p: nat, va: nat, b: int) returns (ok: bool)
      requires Memory() && p in procs && Maps(Users(), p, va)
      modifies vm, vm.rmap, vm.rmap.node
      ensures Memory() && SameBut(old(vm.M()), vm.M())
      ensures ok ==> Users() == WithByte(old(Users()), p, va, b)
      ensures !ok ==> Users() == old(Users()) && old(vm.free) == []
    {
      hide Inv, Abs, PagesOf, TableInv, UsersOf;
      ghost var m := vm.M();
      ghost var d, sz, v := procs[p].pgdir, procs[p].sz, va / PGSIZE;
      OneProc(procs, m, p);
      ok := vm.Store(procs[p].pgdir, va, b);
      if ok {
        ghost var pages := PagesOf(m, d);
        UsersPut(procs, Abs(m), p, pages[v := pages[v][va % PGSIZE := b]], sz);
        assert procs[p := Proc(d, sz)] == procs;
      }
    }

    method HasPage(p: nat, va: nat) returns (yes: bool)
      requires Memory() && p in procs
      ensures yes <==> Maps(Users(), p, va)
    {
      hide Inv, Abs, PagesOf, TableInv, UsersOf;
      OneProc(procs, vm.M(), p);
      yes := vm.Present(procs[p].pgdir, va / PGSIZE);
    }

    method HasAll(p: nat) returns (yes: bool)
      requires Memory() && p in procs
      ensures p in Users() && (yes <==> Full(Users()[p]))
    {
      hide Inv, Abs, PagesOf, TableInv, UsersOf;
      OneProc(procs, vm.M(), p);
      var v := 0;
      while v < Pages(procs[p].sz)
        invariant 0 <= v <= Pages(procs[p].sz)
        invariant forall u :: 0 <= u < v ==> u in Users()[p].pages
      {
        yes := vm.Present(procs[p].pgdir, v);
        if !yes { return; }
        v := v + 1;
      }
      return true;
    }

    /** pipealloc: a page for pipe id. */
    method DoOpen(id: nat) returns (ok: bool)
      requires Valid() && id !in pipes
      modifies this`pipes, vm
      ensures Valid() && Users() == old(Users()) && |vm.mem| == |old(vm.mem)|
      ensures pipes.Keys == if ok then old(pipes.Keys) + {id} else old(pipes.Keys)
      ensures !ok ==> old(vm.free) == []
    {
      hide Inv, Abs, TableInv, UsersOf, KeptRight;
      ghost var m := vm.M();
      var f := vm.TakeKernel(PipePage(id));
      if f == 0 { return false; }
      PipeTaken(m.mem, kstack, pipes, kernel, f, id);
      pipes := pipes[id := f];
      return true;
    }

    /** pipeclose of the second end. */
    method DoClose(id: nat)
      requires Valid() && id in pipes
      modifies this`pipes, vm
      ensures Valid() && Users() == old(Users()) && |vm.mem| == |old(vm.mem)|
      ensures pipes.Keys == old(pipes.Keys) - {id}
    {
      hide Inv, Abs, TableInv, UsersOf, KeptRight;
      PipeGiven(vm.mem, kstack, pipes, kernel, id);
      vm.GiveKernel(pipes[id]);
      pipes := pipes - {id};
    }

    /** growproc, and a store: the kernel's own frames are not touched. */
    method DoMemory(r: Request) returns (reply: Reply, ghost enough: bool)
      requires Valid() && (r.Grow? || r.Store?)
      modifies this`procs, vm, vm.rmap, vm.rmap.node
      ensures Valid() && (Sys(), reply) == EagerStep(old(Sys()), r, enough) && |vm.mem| == |old(vm.mem)|
      ensures !enough ==> |old(vm.free)| < Needs(old(Users()), r)
    {
      hide Inv, Abs, PagesOf, TableInv, UsersOf, EagerGrow, KeptRight;
      SameProcs(procs, Abs(vm.M()));
      if r.pid !in procs { return Stopped, true; }
      ghost var m := vm.M();
      if r.Grow? {
        reply, enough := DoGrow(r.pid, r.n);
      } else {
        var mapped := HasPage(r.pid, r.va);
        if !mapped { return Stopped, true; }
        var ok := DoStore(r.pid, r.va, r.b);
        reply, enough := if ok then Done else Starved, ok;
      }
      KeptSame(m, vm.M(), kstack, pipes, kernel);
    }

    /** One request, answered as the reference answers it. It is refused for want of memory
        only if frames are too few for private copies of everything. */
    method Step(r: Request) returns (reply: Reply, ghost enough: bool)
      requires Valid()
      modifies this, vm, vm.rmap, vm.rmap.node
      ensures Valid() && (Sys(), reply) == EagerStep(old(Sys()), r, enough)
      ensures |vm.mem| == |old(vm.mem)|
      ensures !enough ==> |old(vm.free)| < Needs(old(Users()), r)
      ensures !enough ==> |vm.mem| < kernel + Demand(old(Sys())) + Needs(old(Users()), r)
    {
      hide Inv, Abs, PagesOf, TableInv, UsersOf, EagerGrow, Full, KeptRight, Demand;
      FramesLeft(vm.M(), procs, kstack, pipes, kernel);
      enough := true;
      SameProcs(procs, Abs(vm.M()));
      match r
      case Fork(p, c) =>
        if p !in procs || c in procs { return Stopped, true; }
        var full := HasAll(p);
        if !full { return Stopped, true; }
        reply := DoFork(p, c);
        enough := reply == Done || |old(procs)| >= NPROC;
      case Grow(_, _) =>
        reply, enough := DoMemory(r);
      case Reap(p) =>
        if p !in procs { return Stopped, true; }
        DoReap(p);
        reply := Done;
      case Load(p, va) =>
        if p !in procs { return Stopped, true; }
        var mapped := HasPage(p, va);
        if !mapped { return Stopped, true; }
        var b := DoLoad(p, va);
        reply := Byte(b);
      case Store(_, _, _) =>
        reply, enough := DoMemory(r);
      case OpenPipe(id) =>
        if id in pipes { return Stopped, true; }
        var ok := DoOpen(id);
        reply, enough := if ok then Done else MinusOne, ok;
      case ClosePipe(id) =>
        if id !in pipes { return Stopped, true; }
        DoClose(id);
        reply := Done;
    }

    /** Any script of requests gets the replies that eagerly copied memory would give,
        and leaves each process the memory it would have. The i-th is refused for want of
        memory only if frames are too few for private copies of all that there is then. */
    method Run(script: seq<Request>) returns (replies: seq<Reply>, ghost enough: seq<bool>)
      requires Valid()
      modifies this, vm, vm.rmap, vm.rmap.node
      ensures Valid() && |enough| == |script| && |vm.mem| == |old(vm.mem)|
      ensures (Sys(), replies) == EagerRun(old(Sys()), script, enough)
      ensures forall i :: 0 <= i < |script| && !enough[i] ==>
                var w := EagerRun(old(Sys()), script[..i], enough[..i]).0;
                |vm.mem| < kernel + Demand(w) + Needs(w.users, script[i])
    {
      hide Inv, Abs, TableInv, UsersOf, EagerStep, KeptRight, Demand, Needs;
      replies, enough := [], [];
      ghost var w0, frames := Sys(), |vm.mem|;
      var i := 0;
      while i < |script|
        invariant 0 <= i <= |script| && Valid() && |enough| == i && |vm.mem| == frames
        invariant (Sys(), replies) == EagerRun(w0, script[..i], enough)
        invariant Refused(frames, kernel, w0, script[..i], enough)
      {
        assert script[..i + 1][..i] == script[..i];
        ghost var before, w := enough, Sys();
        if Stopped in replies {
          replies, enough := replies + [Stopped], enough + [true];
        } else {
          var reply;
          ghost var e;
          reply, e := Step(script[i]);
          replies, enough := replies + [reply], enough + [e];
        }
        assert enough[..i] == before;
        RefusedNext(frames, kernel, w0, script[..i + 1], enough);
        i := i + 1;
      }
      assert script[..i] == script;
    }
  }
}
