/**
 What the loops of vm.c and their rollback paths amount to, as relations between
 memories: pages dropped, pages added, a directory freed, a directory copied.
*/
module VmSteps {
  import opened Common
  import opened Rmap
  import opened VmModel

  /** The page-directory slots that kmap fills: KERNBASE up to PHYSTOP, and DEVSPACE to the top. */
  const KSLOTS: seq<nat> := [512, 1016, 1017, 1018, 1019, 1020, 1021, 1022, 1023]

  const KERNBASE: nat := USERPAGES * PGSIZE

  /** PGROUNDUP in pages. */
  function Pages(sz: nat): nat {
    (sz + PGSIZE - 1) / PGSIZE
  }

  /** p without the pages in [lo, hi). */
  function DropRange<T>(p: map<nat, T>, lo: nat, hi: nat): map<nat, T> {
    map v | v in p && !(lo <= v < hi) :: p[v]
  }

  /** n differs from m in page tables alone: it may have more of them. */
  ghost predicate GrewTables(m: Machine, n: Machine) {
    && n.rm == m.rm && n.at == m.at && n.space == m.space
    && Abs(n) == Abs(m)
    && SameBut(m, n)
    && (forall f :: 0 <= f < |m.mem| && m.mem[f].Page? ==> n.mem[f] == m.mem[f])
  }

  /** The new tables, if any, hang from d. */
  ghost predicate GrewOwner(a: map<nat, (nat, nat)>, b: map<nat, (nat, nat)>, d: nat) {
    && (forall t :: t in a ==> t in b && b[t] == a[t])
    && (forall t :: t in b ==> t in a || b[t].0 == d)
  }

  /** The kernel's own frames stay the kernel's, in the same use. */
  ghost predicate SameBut(m: Machine, n: Machine) {
    |n.mem| == |m.mem| && forall f :: 0 <= f < |m.mem| && (m.mem[f].Kernel? || n.mem[f].Kernel?) ==>
        n.mem[f] == m.mem[f]
  }

  lemma SameAsItself(m: Machine)
    ensures SameBut(m, m)
  {
  }

  lemma PagesAbs(m: Machine, d: nat)
    requires d in m.space
    ensures d in Abs(m) && Abs(m)[d] == PagesOf(m, d) && PagesOf(m, d).Keys == m.space[d].Keys
  {
  }

  // ---------- deallocuvm, page by page ----------

  /** (d, v) is mapped, through a table in the tree and to a frame in range. */
  ghost predicate Freeable(m: Machine, d: nat, v: nat) {
    && HasTable(m.mem, d, v / NPTENTRIES) && d in m.space && v in m.space[d]
    && m.space[d][v].frame < |m.rm| && |m.rm| == |m.mem|
  }

  /** Page v of d is unmapped, and its frame is free if d was the last holder. */
  ghost function FreedPage(m: Machine, d: nat, v: nat): Machine
    requires Freeable(m, d, v)
  {
    var n, f := Unmap(m, d, v), m.space[d][v].frame;
    if n.rm[f] == [] then Release(n, f) else n
  }

  lemma FreedPageKeeps(m: Machine, loose: set<nat>, d: nat, v: nat)
    requires Inv(m, loose) && Freeable(m, d, v)
    ensures var n, f := FreedPage(m, d, v), m.space[d][v].frame;
            && Inv(n, loose) && n.space == DropIn(m.space, d, v)
            && Abs(n) == Abs(m)[d := PagesOf(m, d) - {v}]
            && n.rm == m.rm[f := RemoveHolder(m.rm[f], d)] && d !in n.rm[f]
            && SameBut(m, n) && n.owner == m.owner
  {
    hide Inv;
    MappedHeld(m, loose, d, v);
    var n, f := Unmap(m, d, v), m.space[d][v].frame;
    RemoveIsExact(m.rm[f], d);
    UnmapKeeps(m, loose, d, v);
    if n.rm[f] == [] {
      ReleaseKeeps(n, loose + {f}, f);
      assert loose + {f} - {f} == loose;
    }
  }

  /** n is m without d's pages in [lo, hi). */
  ghost predicate Dropped(m: Machine, n: Machine, d: nat, lo: nat, hi: nat) {
    && d in m.space
    && n.space == m.space[d := DropRange(m.space[d], lo, hi)]
    && Abs(n) == Abs(m)[d := DropRange(PagesOf(m, d), lo, hi)]
    && SameBut(m, n) && n.owner == m.owner
    && HoldersDropped(m.rm, n.rm, d)
  }

  /** d has left some frames' lists, and nothing else has changed in the reverse map. */
  ghost predicate HoldersDropped(a: seq<seq<nat>>, b: seq<seq<nat>>, d: nat) {
    && |b| == |a|
    && forall f :: 0 <= f < |a| ==> b[f] == a[f] || (d !in b[f] && b[f] == RemoveHolder(a[f], d))
  }

  lemma HoldersDropOne(a: seq<seq<nat>>, b: seq<seq<nat>>, d: nat, f: nat)
    requires HoldersDropped(a, b, d) && f < |b| && d in b[f] && d !in RemoveHolder(b[f], d)
    ensures HoldersDropped(a, b[f := RemoveHolder(b[f], d)], d)
  {
  }

  lemma DropOne<T>(p: map<nat, T>, lo: nat, v: nat)
    requires lo <= v
    ensures DropRange(p, lo, v + 1) == DropRange(p, lo, v) - {v}
    ensures DropRange(p, lo, lo) == p
  {
  }

  lemma DroppedNothing(m: Machine, d: nat, lo: nat)
    requires d in m.space
    ensures Dropped(m, m, d, lo, lo)
  {
    DropOne(m.space[d], lo, lo);
    DropOne(PagesOf(m, d), lo, lo);
  }

  lemma DropOneOf<T>(a: map<nat, map<nat, T>>, d: nat, lo: nat, v: nat)
    requires d in a && lo <= v
    ensures var b := a[d := DropRange(a[d], lo, v)];
            b[d := b[d] - {v}] == a[d := DropRange(a[d], lo, v + 1)]
  {
    DropOne(a[d], lo, v);
  }

  lemma DroppedPage(m0: Machine, m: Machine, loose: set<nat>, d: nat, lo: nat, v: nat)
    requires Dropped(m0, m, d, lo, v) && lo <= v
    requires Inv(m, loose) && d in m.space && v in m.space[d]
    ensures Freeable(m, d, v) && Dropped(m0, FreedPage(m, d, v), d, lo, v + 1)
  {
    hide Inv, DropRange, Abs, PagesOf, FreedPage, HoldersDropped;
    MappedHasTable(m, loose, d, v);
    FreedPageKeeps(m, loose, d, v);
    PagesAbs(m, d);
    PagesAbs(m0, d);
    DropOneOf(m0.space, d, lo, v);
    DropOneOf(Abs(m0), d, lo, v);
    MappedHeld(m, loose, d, v);
    HoldersDropOne(m0.rm, m.rm, d, m.space[d][v].frame);
  }

  /** deallocuvm's jump over a missing table skips no mapped page. */
  lemma DroppedHole(m0: Machine, m: Machine, loose: set<nat>, d: nat, lo: nat, v: nat, w: nat)
    requires Dropped(m0, m, d, lo, v) && lo <= v <= w
    requires Inv(m, loose) && d in m.space
    requires forall u :: v <= u < w ==> u !in m.space[d]
    ensures Dropped(m0, m, d, lo, w)
  {
    hide Inv;
    assert m.space[d] == DropRange(m0.space[d], lo, v);
    assert forall u :: u in m0.space[d] && u >= v ==> u in DropRange(m0.space[d], lo, v);
    assert DropRange(m0.space[d], lo, w) == DropRange(m0.space[d], lo, v);
    assert DropRange(PagesOf(m0, d), lo, w) == DropRange(PagesOf(m0, d), lo, v);
  }

  /** Where a page table is missing, no page is mapped. */
  lemma NoTableNoPage(m: Machine, loose: set<nat>, d: nat, v: nat)
    requires Inv(m, loose) && d in m.space && !HasTable(m.mem, d, v / NPTENTRIES)
    ensures forall u :: v <= u < (v / NPTENTRIES + 1) * NPTENTRIES ==> u !in m.space[d]
  {
    forall u: nat | v <= u < (v / NPTENTRIES + 1) * NPTENTRIES ensures u !in m.space[d] {
      assert u / NPTENTRIES == v / NPTENTRIES;
      assert !Mapped(m.mem, d, u);
    }
  }

  lemma InTable(m: Machine, loose: set<nat>, d: nat, v: nat)
    requires Inv(m, loose) && d in m.space && HasTable(m.mem, d, v / NPTENTRIES)
    ensures v in m.space[d] <==> v % NPTENTRIES in m.mem[TableOf(m.mem, d, v / NPTENTRIES)].ptes
  {
    assert v in m.space[d] <==> Mapped(m.mem, d, v);
  }

  lemma LiveDir(m: Machine, loose: set<nat>, d: nat)
    requires Inv(m, loose) && d in m.space
    ensures 0 < d < |m.mem| && m.mem[d].Dir? && |m.rm| == |m.mem|
  {
  }

  // ---------- allocuvm, page by page ----------

  function AddZeros(p: map<nat, PageData>, lo: nat, hi: nat): map<nat, PageData> {
    if hi <= lo then p else AddZeros(p, lo, hi - 1)[hi - 1 := ZeroPage()]
  }

  lemma {:induction false} AddedZeros(p: map<nat, PageData>, lo: nat, hi: nat)
    ensures forall v :: v in AddZeros(p, lo, hi) <==> v in p || lo <= v < hi
    ensures forall v :: v in AddZeros(p, lo, hi) ==>
              AddZeros(p, lo, hi)[v] == if lo <= v < hi then ZeroPage() else p[v]
  {
    if lo < hi { AddedZeros(p, lo, hi - 1); }
  }

  /** n is m with zeroed pages [lo, hi) added to d; dropping them gives m's space back. */
  ghost predicate Grown(m: Machine, n: Machine, d: nat, lo: nat, hi: nat) {
    && d in m.space && d in n.space
    && n.space == m.space[d := n.space[d]]
    && DropRange(n.space[d], lo, hi) == m.space[d]
    && Abs(n) == Abs(m)[d := AddZeros(PagesOf(m, d), lo, hi)]
    && SameBut(m, n)
  }

  lemma GrownNothing(m: Machine, d: nat, lo: nat)
    requires d in m.space
    ensures Grown(m, m, d, lo, lo)
  {
    DropOne(m.space[d], lo, lo);
    assert AddZeros(PagesOf(m, d), lo, lo) == PagesOf(m, d);
  }

  lemma GrownFacts(m0: Machine, m: Machine, d: nat, lo: nat, v: nat)
    requires Grown(m0, m, d, lo, v)
    ensures d in m.space && d in m0.space
    ensures forall u :: u !in m0.space[d] && u >= v ==> u !in m.space[d]
  {
    assert forall u :: u in m.space[d] && u >= v ==> u in DropRange(m.space[d], lo, v);
  }

  lemma GrownSame(m0: Machine, m: Machine, n: Machine, d: nat, lo: nat, v: nat)
    requires Grown(m0, m, d, lo, v) && (n == m || GrewTables(m, n))
    ensures Grown(m0, n, d, lo, v)
  {
  }

  lemma DropAdded(p: map<nat, Pte>, q: map<nat, Pte>, lo: nat, v: nat, e: Pte)
    requires lo <= v && DropRange(p, lo, v) == q && v !in p
    ensures DropRange(p[v := e], lo, v + 1) == q
  {
    assert v !in q;
  }

  lemma GrownPage(m0: Machine, m: Machine, n: Machine, d: nat, lo: nat, v: nat, f: nat)
    requires Grown(m0, m, d, lo, v) && lo <= v && v !in m.space[d]
    requires n.space == SetIn(m.space, d, v, Pte(f, true))
    requires Abs(n) == Abs(m)[d := PagesOf(m, d)[v := ZeroPage()]] && SameBut(m, n)
    ensures Grown(m0, n, d, lo, v + 1)
  {
    hide PagesOf, DropRange, Abs, ZeroPage;
    PagesAbs(m, d);
    DropAdded(m.space[d], m0.space[d], lo, v, Pte(f, true));
  }

  lemma DropWider(p: map<nat, Pte>, q: map<nat, Pte>, lo: nat, v: nat, hi: nat)
    requires DropRange(p, lo, v) == q && lo <= v <= hi && forall u :: lo <= u < hi ==> u !in q
    ensures DropRange(p, lo, hi) == q
  {
    assert forall u :: u in p && v <= u < hi ==> u in DropRange(p, lo, v);
    assert forall u :: u in q <==> u in DropRange(p, lo, v);
  }

  lemma DropZeros(p: map<nat, PageData>, lo: nat, v: nat, hi: nat)
    requires lo <= v <= hi && forall u :: lo <= u < hi ==> u !in p
    ensures DropRange(AddZeros(p, lo, v), lo, hi) == p
  {
    AddedZeros(p, lo, v);
  }

  /** Undoing a growth that stopped at v. */
  lemma GrownUndone(m0: Machine, m: Machine, n: Machine, d: nat, lo: nat, v: nat, hi: nat)
    requires Grown(m0, m, d, lo, v) && lo <= v <= hi && Dropped(m, n, d, lo, hi)
    requires forall u :: lo <= u < hi ==> u !in m0.space[d]
    ensures n.space == m0.space && Abs(n) == Abs(m0) && SameBut(m0, n)
  {
    hide Abs, PagesOf, DropRange, AddZeros;
    PagesAbs(m, d);
    PagesAbs(m0, d);
    assert Abs(m)[d] == AddZeros(PagesOf(m0, d), lo, v);
    DropWider(m.space[d], m0.space[d], lo, v, hi);
    DropZeros(PagesOf(m0, d), lo, v, hi);
  }

  /** Mapping a zeroed, otherwise unused page. */
  lemma MappedZeros(m0: Machine, m: Machine, d: nat, v: nat, f: nat)
    requires Inv(m, {f}) && m.space == m0.space && Abs(m) == Abs(m0) && SameBut(m0, m)
    requires f < |m.mem| && m.mem[f] == Page(ZeroPage()) && d in m.space && v !in m.space[d] && v < USERPAGES
    requires HasTable(m.mem, d, v / NPTENTRIES)
    ensures Unused(m, f)
    ensures var n := MapPage(m, d, v, f, true);
            && Inv(n, {}) && n.space == SetIn(m0.space, d, v, Pte(f, true)) && SameBut(m0, n)
            && Abs(n) == Abs(m0)[d := PagesOf(m0, d)[v := ZeroPage()]]
  {
    hide Inv, Abs, PagesOf;
    LooseUnused(m, {f}, f);
    MapPageKeeps(m, {f}, d, v, f, true);
    assert {f} - {f} == {};
    PagesAbs(m0, d);
    PagesAbs(m, d);
  }

  // ---------- freevm ----------

  /** d is gone from m, with its tables and its places in the reverse map. */
  ghost predicate Freed(m: Machine, n: Machine, d: nat) {
    && n.space == m.space - {d} && n.owner == m.owner - TablesOf(m.owner, d)
    && Abs(n) == Abs(m) - {d} && SameBut(m, n)
    && |n.rm| == |m.rm| && forall f :: 0 <= f < |m.rm| ==> n.rm[f] == RemoveHolder(m.rm[f], d)
  }

  lemma DroppedAll(m: Machine, n: Machine, d: nat)
    requires Inv(m, {}) && Dropped(m, n, d, 0, Pages(KERNBASE)) && Inv(n, {})
    ensures d in n.space && n.space[d] == map[]
    ensures Abs(n) == Abs(m)[d := map[]] && n.space == m.space[d := map[]] && n.owner == m.owner && SameBut(m, n)
    ensures |n.rm| == |m.rm| && forall f :: 0 <= f < |m.rm| ==> n.rm[f] == RemoveHolder(m.rm[f], d)
  {
    AllDropped(m, d);
    assert n.space[d] == map[];
    forall f | 0 <= f < |m.rm| ensures n.rm[f] == RemoveHolder(m.rm[f], d) {
      NotHeld(n, {}, f, d);
      if n.rm[f] == m.rm[f] { RemoveAbsent(m.rm[f], d); }
    }
  }

  lemma AllDropped(m: Machine, d: nat)
    requires Inv(m, {}) && d in m.space
    ensures DropRange(m.space[d], 0, Pages(KERNBASE)) == map[]
    ensures DropRange(PagesOf(m, d), 0, Pages(KERNBASE)) == map[]
  {
    assert Pages(KERNBASE) == USERPAGES;
  }

  lemma NotHeld(m: Machine, loose: set<nat>, f: nat, d: nat)
    requires Inv(m, loose) && f < |m.rm| && (d !in m.space || m.space[d] == map[])
    ensures d !in m.rm[f]
  {
    assert d in m.rm[f] ==> HeldBy(m.at, m.space, f, d);
  }

  /** The tables in slots i and up. */
  ghost function TablesFrom(dir: map<nat, nat>, i: nat): set<nat> {
    set x | x in dir && i <= x :: dir[x]
  }

  ghost predicate OneSlotEach(dir: map<nat, nat>) {
    && (forall x :: x in dir ==> x < NPTENTRIES)
    && (forall x, y :: x in dir && y in dir && x != y ==> dir[x] != dir[y])
  }

  lemma TablesFromStep(dir: map<nat, nat>, i: nat)
    requires OneSlotEach(dir)
    ensures i in dir ==> dir[i] in TablesFrom(dir, i) && TablesFrom(dir, i + 1) == TablesFrom(dir, i) - {dir[i]}
    ensures i !in dir ==> TablesFrom(dir, i + 1) == TablesFrom(dir, i)
    ensures TablesFrom(dir, NPTENTRIES) == {}
  {
    assert forall x :: x in dir && i <= x && x != i ==> dir[x] in TablesFrom(dir, i + 1);
  }

  lemma DetachedLoose(m: Machine, d: nat)
    requires Inv(m, {}) && d in m.space && m.space[d] == map[]
    ensures d < |m.mem| && m.mem[d].Dir?
    ensures var dir := m.mem[d].tables;
            && OneSlotEach(dir) && d !in TablesFrom(dir, 0)
            && Inv(Detach(m, d), {d} + TablesFrom(dir, 0))
    ensures Abs(Detach(m, d)) == Abs(m) - {d} && SameBut(m, Detach(m, d))
  {
    hide Inv, Abs;
    DetachKeeps(m, {}, d);
    var dir := m.mem[d].tables;
    assert TablesOf(m.owner, d) == TablesFrom(dir, 0) by {
      assert forall x :: x in dir ==> dir[x] in TablesOf(m.owner, d);
    }
    assert {} + {d} + TablesOf(m.owner, d) == {d} + TablesFrom(dir, 0);
  }

  lemma ReleasedLoose(m0: Machine, m: Machine, loose: set<nat>, f: nat)
    requires Inv(m, loose) && f in loose && SameBut(m0, m)
    ensures f < |m.mem| && Inv(Release(m, f), loose - {f}) && Abs(Release(m, f)) == Abs(m) && SameBut(m0, Release(m, f))
  {
    hide Inv, Abs;
    LooseUnused(m, loose, f);
    ReleaseKeeps(m, loose, f);
  }

  lemma AllFreed(m0: Machine, m1: Machine, n: Machine, d: nat)
    requires d in m0.space && SameBut(m0, m1) && SameBut(m1, n)
    requires Abs(m1) == Abs(m0)[d := map[]] && m1.space == m0.space[d := map[]] && m1.owner == m0.owner
    requires n.space == m1.space - {d} && n.owner == m1.owner - TablesOf(m1.owner, d) && n.rm == m1.rm
    requires Abs(n) == Abs(m1) - {d}
    requires |m1.rm| == |m0.rm| && forall f :: 0 <= f < |m0.rm| ==> m1.rm[f] == RemoveHolder(m0.rm[f], d)
    ensures Freed(m0, n, d)
  {
    hide Abs, RemoveHolder;
  }

  // ---------- inituvm ----------

  /** A page that starts with init[..i] and is zero from there on. */
  function Padded(init: seq<int>, i: nat): PageData
    requires i <= |init| < PGSIZE
  {
    init[..i] + ZeroPage()[i..]
  }

  function OnePage(page: PageData): map<nat, PageData> {
    map[0 := page]
  }

  lemma PaddedNext(init: seq<int>, i: nat)
    requires i <= |init| < PGSIZE
    ensures Padded(init, 0) == ZeroPage()
    ensures i < |init| ==> Padded(init, i)[i := init[i]] == Padded(init, i + 1)
  {
  }

  // ---------- setupkvm ----------

  /** A table hangs from slot x of d. */
  ghost predicate HasSlot(owner: map<nat, (nat, nat)>, d: nat, x: nat) {
    exists t :: t in owner && owner[t] == (d, x)
  }

  /** The first k of the kernel's slots have theirs. */
  ghost predicate HasSlots(owner: map<nat, (nat, nat)>, d: nat, k: nat) {
    k <= |KSLOTS| && forall j :: 0 <= j < k ==> HasSlot(owner, d, KSLOTS[j])
  }

  lemma SlotStays(a: map<nat, (nat, nat)>, b: map<nat, (nat, nat)>, d: nat, x: nat)
    requires HasSlot(a, d, x) && GrewOwner(a, b, d)
    ensures HasSlot(b, d, x)
  {
    var t :| t in a && a[t] == (d, x);
    assert b[t] == (d, x);
  }

  lemma SlotsStay(a: map<nat, (nat, nat)>, b: map<nat, (nat, nat)>, d: nat, k: nat)
    requires HasSlots(a, d, k) && k < |KSLOTS| && GrewOwner(a, b, d) && HasSlot(b, d, KSLOTS[k])
    ensures HasSlots(b, d, k + 1)
  {
    hide KSLOTS, GrewOwner, HasSlot;
    forall j | 0 <= j < k ensures HasSlot(b, d, KSLOTS[j]) {
      SlotStays(a, b, d, KSLOTS[j]);
    }
  }

  lemma SlotTaken(m: Machine, d: nat, x: nat)
    requires Inv(m, {}) && d in m.space && HasTable(m.mem, d, x)
    ensures HasSlot(m.owner, d, x)
  {
    assert TableOf(m.mem, d, x) in m.owner;
  }

  /** n is m with a new empty directory d. */
  ghost predicate WithDir(m: Machine, n: Machine, d: nat) {
    && d != 0 && d !in m.space && n.space == m.space[d := map[]] && Abs(n) == Abs(m)[d := map[]]
    && n.rm == m.rm && n.at == m.at && GrewOwner(m.owner, n.owner, d) && SameBut(m, n)
  }

  /** The same frames are in the same use. */
  ghost predicate SameUse(m: Machine, n: Machine) {
    n.space.Keys == m.space.Keys && n.owner == m.owner && n.rm == m.rm && Abs(n) == Abs(m) && SameBut(m, n)
  }

  lemma NoTablesYet(m: Machine, n: Machine, d: nat)
    requires Inv(m, {}) && d !in m.space && GrewOwner(m.owner, n.owner, d)
    ensures n.owner - TablesOf(n.owner, d) == m.owner
  {
  }

  lemma WithDirStill(m0: Machine, m: Machine, n: Machine, d: nat)
    requires WithDir(m0, m, d) && GrewTables(m, n) && GrewOwner(m.owner, n.owner, d)
    ensures WithDir(m0, n, d)
  {
  }

  lemma AddedGone<T>(a: map<nat, T>, d: nat, x: T)
    requires d !in a
    ensures a[d := x] - {d} == a
  {
  }

  lemma AbsKeys(m: Machine)
    ensures Abs(m).Keys == m.space.Keys
  {
  }

  lemma SetupUndone(m0: Machine, m: Machine, n: Machine, d: nat)
    requires Inv(m0, {}) && WithDir(m0, m, d) && Freed(m, n, d)
    ensures SameUse(m0, n)
  {
    hide Abs, Inv, RemoveHolder;
    NoTablesYet(m0, m, d);
    forall f | 0 <= f < |m0.rm| ensures n.rm[f] == m0.rm[f] {
      NotHeld(m0, {}, f, d);
      RemoveAbsent(m0.rm[f], d);
    }
    AbsKeys(m0);
    AddedGone(m0.space, d, map[]);
    AddedGone(Abs(m0), d, map[]);
  }

  // ---------- copyuvm, page by page ----------

  ghost function TakePages<T>(p: map<nat, T>, hi: nat): map<nat, T> {
    map v | v in p && v < hi :: p[v]
  }

  /** n is m with c a copy of p's pages below i, sharing p's frames. */
  ghost predicate Copied(m: Machine, n: Machine, p: nat, c: nat, i: nat) {
    && c !in m.space && p in m.space && p in n.space && n.space.Keys == m.space.Keys + {c}
    && SameFrames(m.space[p], n.space[p])
    && Abs(n) == Abs(m)[c := TakePages(PagesOf(m, p), i)]
    && HoldersAdded(m.rm, n.rm, c)
    && (forall u :: u in n.space[p] && i <= u ==> Untouched(m.rm, n.rm, n.space[p][u].frame))
    && GrewOwner(m.owner, n.owner, c) && SameBut(m, n) && SharesFrames(n.space, p, c)
  }

  /** Every page of c is p's, in the same frame. */
  ghost predicate SharesFrames(space: Space, p: nat, c: nat) {
    && p in space && c in space
    && forall u :: u in space[c] ==> u in space[p] && space[c][u].frame == space[p][u].frame
  }

  ghost predicate SameFrames(p: map<nat, Pte>, q: map<nat, Pte>) {
    p.Keys == q.Keys && forall u :: u in p ==> q[u].frame == p[u].frame
  }

  ghost predicate HoldersAdded(a: seq<seq<nat>>, b: seq<seq<nat>>, c: nat) {
    && |b| == |a|
    && forall f :: 0 <= f < |a| ==> c !in a[f] && (b[f] == a[f] || b[f] == a[f] + [c])
  }

  ghost predicate Untouched(a: seq<seq<nat>>, b: seq<seq<nat>>, f: nat) {
    f < |a| == |b| && b[f] == a[f]
  }

  /** There is room for one more holder of p's page u. */
  ghost predicate CanShare(m: Machine, p: nat, u: nat) {
    p in m.space && u in m.space[p] && m.space[p][u].frame < |m.rm| && |m.rm[m.space[p][u].frame]| < NPROC
  }

  lemma CanShareStill(m0: Machine, m: Machine, p: nat, c: nat, i: nat)
    requires CanShare(m0, p, i) && Copied(m0, m, p, c, i)
    ensures i in m.space[p] && m.space[p][i].frame < |m0.rm| && |m0.rm[m.space[p][i].frame]| < NPROC
  {
  }

  lemma CopiedAll(m0: Machine, m: Machine, p: nat, c: nat, i: nat)
    requires Copied(m0, m, p, c, i)
    ensures SameBut(m0, m)
    ensures c !in m0.space && p in m0.space && Abs(m) == Abs(m0)[c := TakePages(PagesOf(m0, p), i)]
    ensures c in m.space && forall u :: u in m.space[c] ==>
            u in m0.space[p] && m.space[c][u].frame == m0.space[p][u].frame
  {
  }

  lemma CopiedNothing(m: Machine, n: Machine, p: nat, c: nat)
    requires Inv(m, {}) && Inv(n, {}) && p in m.space && WithDir(m, n, c)
    ensures Copied(m, n, p, c, 0)
  {
    hide Inv;
    forall f | 0 <= f < |m.rm| ensures c !in m.rm[f] { NotHeld(m, {}, f, c); }
    forall u | u in n.space[p] ensures n.space[p][u].frame < |n.rm| { MappedHasTable(n, {}, p, u); }
    assert TakePages(PagesOf(m, p), 0) == map[];
  }

  lemma CopiedFacts(m0: Machine, m: Machine, p: nat, c: nat, i: nat)
    requires Copied(m0, m, p, c, i)
    ensures c in m.space && i !in m.space[c] && p in m.space && p != c
    ensures i in m0.space[p] ==> i in m.space[p]
    ensures PagesOf(m, p) == PagesOf(m0, p)
  {
    hide PageAt;
    PagesAbs(m, c);
    PagesAbs(m, p);
    PagesAbs(m0, p);
  }

  /** Clearing the parent's write bit leaves everyone's memory as it was. */
  lemma CopiedProtected(m0: Machine, m: Machine, p: nat, c: nat, i: nat)
    requires Inv(m, {}) && Copied(m0, m, p, c, i) && i in m.space[p]
    ensures HasTable(m.mem, p, i / NPTENTRIES)
    ensures Inv(Protect(m, p, i, false), {}) && Copied(m0, Protect(m, p, i, false), p, c, i)
  {
    hide Inv, Abs, PagesOf, TakePages;
    MappedHasTable(m, {}, p, i);
    ProtectKeeps(m, {}, p, i, false);
  }

  lemma CopiedStill(m0: Machine, m: Machine, n: Machine, p: nat, c: nat, i: nat)
    requires Copied(m0, m, p, c, i) && GrewTables(m, n) && GrewOwner(m.owner, n.owner, c)
    ensures Copied(m0, n, p, c, i)
  {
    hide Abs, PagesOf, TakePages;
  }

  /** A page that p holds read-only is one nobody may write. */
  lemma ReadOnlyForAll(mem: seq<Content>, rm: seq<seq<nat>>, at: map<nat, nat>, space: Space, p: nat, i: nat, e: nat)
    requires ShareInv(mem, rm, at, space) && p in space && i in space[p] && !space[p][i].w
    requires space[p][i].frame < |rm| && e in rm[space[p][i].frame] && e in space && i in space[e]
    ensures !space[e][i].w
  {
    var f := space[p][i].frame;
    assert MapsPage(mem, rm, at, space, p, i) && HeldBy(at, space, f, e) && MapsPage(mem, rm, at, space, e, i);
    hide ShareInv;
    assert |rm[f]| == 1 ==> rm[f] == [rm[f][0]];
  }

  lemma ReadOnlyShareable(m: Machine, p: nat, c: nat, i: nat)
    requires Inv(m, {}) && p in m.space && i in m.space[p] && !m.space[p][i].w
    requires m.space[p][i].frame < |m.rm| && c !in m.rm[m.space[p][i].frame]
    requires |m.rm[m.space[p][i].frame]| < NPROC
    ensures Shareable(m, c, i, m.space[p][i].frame, false)
    ensures m.mem[m.space[p][i].frame].data == PageAt(m, p, i)
  {
    hide FreeInv, TreeInv, FlatInv, ShareInv, NoLeak;
    var f := m.space[p][i].frame;
    MappedHasTable(m, {}, p, i);
    forall e | e in m.rm[f] && e in m.space && i in m.space[e] ensures !m.space[e][i].w {
      ReadOnlyForAll(m.mem, m.rm, m.at, m.space, p, i, e);
    }
  }

  lemma OtherFrames(m: Machine, p: nat, i: nat, u: nat)
    requires Inv(m, {}) && p in m.space && i in m.space[p] && u in m.space[p] && u != i
    ensures m.space[p][u].frame != m.space[p][i].frame
  {
    assert MapsPage(m.mem, m.rm, m.at, m.space, p, i);
    assert MapsPage(m.mem, m.rm, m.at, m.space, p, u);
  }

  lemma TakeOne<T>(p: map<nat, T>, i: nat)
    requires i in p
    ensures TakePages(p, i)[i := p[i]] == TakePages(p, i + 1)
  {
  }

  lemma CopiedPage(m0: Machine, m: Machine, p: nat, c: nat, i: nat)
    requires Inv(m, {}) && Copied(m0, m, p, c, i) && i in m.space[p] && !m.space[p][i].w && i < USERPAGES
    requires HasTable(m.mem, c, i / NPTENTRIES)
    requires m.space[p][i].frame < |m0.rm| && |m0.rm[m.space[p][i].frame]| < NPROC
    ensures m.space[p][i].frame < |m.rm| && c in m.space && c != 0
    ensures var n := MapPage(m, c, i, m.space[p][i].frame, false);
            Inv(n, {}) && Copied(m0, n, p, c, i + 1)
  {
    hide Inv, Abs, PagesOf, TakePages, PageAt;
    var f := m.space[p][i].frame;
    CopiedFacts(m0, m, p, c, i);
    LiveDir(m, {}, c);
    ReadOnlyShareable(m, p, c, i);
    MapPageKeeps(m, {}, c, i, f, false);
    assert {} - {f} == {};
    var n := MapPage(m, c, i, f, false);
    CopiedAbs(m0, m, n, p, c, i);
    forall u | u in n.space[p] && i + 1 <= u ensures Untouched(m0.rm, n.rm, n.space[p][u].frame) {
      OtherFrames(m, p, i, u);
    }
  }

  lemma CopiedAbs(m0: Machine, m: Machine, n: Machine, p: nat, c: nat, i: nat)
    requires Copied(m0, m, p, c, i) && i in m.space[p]
    requires c in m.space && Abs(n) == Abs(m)[c := PagesOf(m, c)[i := PageAt(m, p, i)]]
    ensures Abs(n) == Abs(m0)[c := TakePages(PagesOf(m0, p), i + 1)]
  {
    hide TakePages, PageAt;
    CopiedFacts(m0, m, p, c, i);
    PagesAbs(m, c);
    assert PagesOf(m, p)[i] == PageAt(m, p, i);
    TakeOne(PagesOf(m0, p), i);
  }

  lemma HoldersTakenBack(a: seq<seq<nat>>, b: seq<seq<nat>>, c: nat, f: nat)
    requires HoldersAdded(a, b, c) && f < |a|
    ensures RemoveHolder(b[f], c) == a[f]
  {
    if b[f] == a[f] {
      RemoveAbsent(a[f], c);
    } else {
      RemoveAt(b[f], c, |a[f]|);
    }
  }

  /** A failed fork gives back every frame and every place it took. */
  lemma CopyUndone(m0: Machine, m: Machine, n: Machine, p: nat, c: nat, i: nat)
    requires Inv(m0, {}) && Copied(m0, m, p, c, i) && Freed(m, n, c)
    ensures SameUse(m0, n)
  {
    hide Abs, Inv, RemoveHolder, TakePages, PagesOf;
    NoTablesYet(m0, m, c);
    forall f | 0 <= f < |m0.rm| ensures n.rm[f] == m0.rm[f] {
      HoldersTakenBack(m0.rm, m.rm, c, f);
    }
    AbsKeys(m0);
    AddedGone(Abs(m0), c, TakePages(PagesOf(m0, p), i));
  }

  // ---------- a write fault ----------

  /** d's mapping of v moves from a shared frame to its own copy f. */
  lemma CowCopied(m0: Machine, m: Machine, d: nat, v: nat, f: nat)
    requires Inv(m, {f}) && m.space == m0.space && Abs(m) == Abs(m0) && d in m.space && v in m.space[d]
    requires f < |m.mem| && m.mem[f] == Page(PageAt(m0, d, v))
    requires Freeable(m, d, v) && |m.rm[m.space[d][v].frame]| != 1
    ensures var u := Unmap(m, d, v);
            && HasTable(u.mem, d, v / NPTENTRIES) && d in u.space && f < |u.rm|
            && Inv(MapPage(u, d, v, f, true), {}) && Abs(MapPage(u, d, v, f, true)) == Abs(m0)
  {
    hide Inv, Abs, PagesOf, PageAt;
    var u, g := Unmap(m, d, v), m.space[d][v].frame;
    UnmapKeeps(m, {f}, d, v);
    LooseUnused(m, {f}, f);
    MappedHeld(m, {f}, d, v);
    assert u.rm[g] != [];
    assert LooseAfterUnmap(m, {f}, d, v) == {f};
    LooseUnused(u, {f}, f);
    MappedHasTable(m, {f}, d, v);
    MapPageKeeps(u, {f}, d, v, f, true);
    assert {f} - {f} == {};
    PagesAbs(m, d);
    PagesAbs(m0, d);
    PagesAbs(u, d);
    assert PagesOf(m0, d)[v] == PageAt(m0, d, v) by { PagesAt(m0, d, v); }
    TakenBack(Abs(m0), d, v);
  }

  lemma PagesAt(m: Machine, d: nat, v: nat)
    requires d in m.space && v in m.space[d]
    ensures v in PagesOf(m, d) && PagesOf(m, d)[v] == PageAt(m, d, v)
  {
  }

  lemma TakenBack<T>(a: map<nat, map<nat, T>>, d: nat, v: nat)
    requires d in a && v in a[d]
    ensures var b := a[d := a[d] - {v}]; b[d := b[d][v := a[d][v]]] == a
  {
    assert (a[d] - {v})[v := a[d][v]] == a[d];
  }

  /** The copy has the bytes of the shared page. */
  lemma CowFill(m0: Machine, m: Machine, d: nat, v: nat, f: nat)
    requires Inv(m0, {}) && Inv(m, {f}) && GrewTables(m0, m) && d in m0.space && v in m0.space[d]
    requires m.owner == m0.owner && m.mem == m0.mem[f := Raw] && f < |m0.mem| && m0.mem[f].Free?
    ensures var pa := m0.space[d][v].frame;
            && pa < |m.mem| && m.mem[pa] == Page(PageAt(m0, d, v))
            && Inv(m.(mem := m.mem[f := m.mem[pa]]), {f}) && Abs(m.(mem := m.mem[f := m.mem[pa]])) == Abs(m0)
            && Freeable(m.(mem := m.mem[f := m.mem[pa]]), d, v)
  {
    hide Inv, Abs;
    MappedHeld(m0, {}, d, v);
    FillKeeps(m, {f}, f, PageAt(m0, d, v));
    MappedHasTable(Fill(m, f, PageAt(m0, d, v)), {f}, d, v);
  }

  lemma CowSame(m: Machine, n: Machine, f: nat, t: nat)
    requires f < |m.mem| && t < |m.mem| && m.mem[f].Free? && m.mem[t].Table? && |n.mem| == |m.mem|
    requires !n.mem[f].Kernel? && !n.mem[t].Kernel?
    requires forall g :: 0 <= g < |m.mem| && g != f && g != t ==> n.mem[g] == m.mem[g]
    ensures SameBut(m, n)
  {
  }

  lemma CowMachine(m: Machine, n: Machine, d: nat, v: nat, f: nat)
    requires Freeable(m, d, v) && f < |m.rm| && f != m.space[d][v].frame && d < |m.mem| && m.mem[d].Dir?
    requires var t := TableOf(m.mem, d, v / NPTENTRIES);
             n == m.(mem := m.mem[t := Table((m.mem[t].ptes - {v % NPTENTRIES})[v % NPTENTRIES := Pte(f, true)])],
                     rm := n.rm, at := m.at[f := v], space := SetIn(m.space, d, v, Pte(f, true)))
    requires var g := m.space[d][v].frame;
             n.rm == m.rm[g := RemoveHolder(m.rm[g], d)][f := AddHolder(m.rm[f], d)]
    ensures var u := Unmap(m, d, v);
            HasTable(u.mem, d, v / NPTENTRIES) && n == MapPage(u, d, v, f, true)
  {
    hide AddHolder, RemoveHolder;
    var u := Unmap(m, d, v);
    var p: map<nat, Pte> := m.space[d];
    assert (p - {v})[v := Pte(f, true)] == p[v := Pte(f, true)];
  }
}
