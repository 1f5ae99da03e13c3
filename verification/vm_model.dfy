/**
 Physical memory under copy-on-write (vm.c, cow.c, kalloc.c) as a value: what
 every frame holds, the free list, the reverse map, and the flat address space
 that each page directory's two-level table stands for. Addresses are in pages.

 owner (which directory slot a page table hangs from), at (the page number at
 which a frame is mapped) and space are bookkeeping: the kernel has the first
 two nowhere and the third only through the tables.
*/
module VmModel {
  import opened Common
  import opened Rmap

  const PGSIZE: nat := 4096
  const NPTENTRIES: nat := 1024
  /** KERNBASE / PGSIZE: the number of user pages. */
  const USERPAGES: nat := 0x80000

  type PageData = p: seq<int> | |p| == PGSIZE witness seq(PGSIZE, _ => 0)

  datatype Pte = Pte(frame: nat, w: bool)

  /** What the kernel uses a frame for itself: its image, a process's kernel stack, a pipe. */
  datatype Use = Boot | Stack(pid: nat) | PipePage(id: nat)

  /** Raw is a frame fresh from kalloc. */
  datatype Content =
    | Free
    | Raw
    | Page(data: PageData)
    | Table(ptes: map<nat, Pte>)
    | Dir(tables: map<nat, nat>)
    | Kernel(use: Use)

  type Space = map<nat, map<nat, Pte>>

  datatype Machine = Machine(
    mem: seq<Content>,
    free: seq<nat>,
    rm: seq<seq<nat>>,
    owner: map<nat, (nat, nat)>,
    at: map<nat, nat>,
    space: Space)

  // ---------- the two-level tables ----------

  predicate HasTable(mem: seq<Content>, d: nat, x: nat) {
    && d < |mem| && mem[d].Dir? && x in mem[d].tables
    && mem[d].tables[x] < |mem| && mem[mem[d].tables[x]].Table?
  }

  function TableOf(mem: seq<Content>, d: nat, x: nat): nat
    requires HasTable(mem, d, x)
  {
    mem[d].tables[x]
  }

  predicate Mapped(mem: seq<Content>, d: nat, v: nat) {
    HasTable(mem, d, v / NPTENTRIES)
    && v % NPTENTRIES in mem[TableOf(mem, d, v / NPTENTRIES)].ptes
  }

  function PteOf(mem: seq<Content>, d: nat, v: nat): Pte
    requires Mapped(mem, d, v)
  {
    mem[TableOf(mem, d, v / NPTENTRIES)].ptes[v % NPTENTRIES]
  }

  /** Every table hangs from one slot of one live directory. */
  ghost predicate TreeInv(mem: seq<Content>, owner: map<nat, (nat, nat)>, space: Space) {
    && (forall d :: d in space ==> d < |mem| && mem[d].Dir?)
    && (forall d, x :: d in space && x in mem[d].tables ==>
          HasTable(mem, d, x) && TableOf(mem, d, x) in owner && owner[TableOf(mem, d, x)] == (d, x))
    && (forall t :: t in owner ==>
          owner[t].0 in space && HasTable(mem, owner[t].0, owner[t].1) && TableOf(mem, owner[t].0, owner[t].1) == t)
  }

  /** space is what the tables say. */
  ghost predicate FlatInv(mem: seq<Content>, space: Space) {
    && (forall d, v: nat :: d in space ==> (v in space[d] <==> Mapped(mem, d, v)))
    && (forall d, v :: d in space && v in space[d] ==> space[d][v] == PteOf(mem, d, v) && v < USERPAGES)
  }

  // ---------- sharing ----------

  /** The reverse map lists exactly the directories that map a frame, all at the
      same page number, and only a sole holder may write. */
  ghost predicate ShareInv(mem: seq<Content>, rm: seq<seq<nat>>, at: map<nat, nat>, space: Space) {
    && |rm| == |mem|
    && (forall d, v :: d in space && v in space[d] ==> MapsPage(mem, rm, at, space, d, v))
    && (forall f :: 0 <= f < |rm| ==> Distinct(rm[f]) && |rm[f]| <= NPROC)
    && (forall f, d :: 0 <= f < |rm| && d in rm[f] ==> HeldBy(at, space, f, d))
  }

  ghost predicate MapsPage(mem: seq<Content>, rm: seq<seq<nat>>, at: map<nat, nat>, space: Space, d: nat, v: nat)
    requires |rm| == |mem| && d in space && v in space[d]
  {
    var f := space[d][v].frame;
    && f < |mem| && mem[f].Page? && f in at && at[f] == v
    && d in rm[f]
    && (space[d][v].w ==> |rm[f]| == 1)
  }

  ghost predicate HeldBy(at: map<nat, nat>, space: Space, f: nat, d: nat) {
    d in space && f in at && at[f] in space[d] && space[d][at[f]].frame == f
  }

  // ---------- the free list, and no frame lost ----------

  ghost predicate FreeInv(mem: seq<Content>, free: seq<nat>) {
    && |mem| > 0 && mem[0] == Kernel(Boot)
    && Distinct(free)
    && (forall f: nat :: f in free <==> f < |mem| && mem[f] == Free)
  }

  /** Every frame in use has its one use, unless it is loose: allocated, and not
      yet, or no longer, reachable from any directory. */
  ghost predicate NoLeak(mem: seq<Content>, rm: seq<seq<nat>>, owner: map<nat, (nat, nat)>, space: Space,
                         loose: set<nat>) {
    && |rm| == |mem|
    && (forall f: nat :: f < |mem| && mem[f].Raw? ==> f in loose)
    && (forall f: nat :: f < |mem| && mem[f].Page? ==> (rm[f] == [] <==> f in loose))
    && (forall f: nat :: f < |mem| && mem[f].Table? ==> (f in owner <==> f !in loose))
    && (forall f: nat :: f < |mem| && mem[f].Dir? ==> (f in space <==> f !in loose))
    && (forall f, x :: 0 <= f < |mem| && mem[f].Dir? && x in mem[f].tables ==> x < NPTENTRIES)
    && (forall f :: f in loose ==> f < |mem| && !mem[f].Free? && !mem[f].Kernel?)
  }

  ghost predicate Inv(m: Machine, loose: set<nat>) {
    && FreeInv(m.mem, m.free)
    && TreeInv(m.mem, m.owner, m.space)
    && FlatInv(m.mem, m.space)
    && ShareInv(m.mem, m.rm, m.at, m.space)
    && NoLeak(m.mem, m.rm, m.owner, m.space, loose)
  }

  // ---------- what a process reads ----------

  type Memory = map<nat, map<nat, PageData>>

  /** Every page's bytes, per directory: memory as private copies. */
  ghost function Abs(m: Machine): Memory {
    map d | d in m.space :: PagesOf(m, d)
  }

  ghost function PagesOf(m: Machine, d: nat): map<nat, PageData>
    requires d in m.space
  {
    map v | v in m.space[d] :: PageAt(m, d, v)
  }

  /** What d reads at page v; under the invariant the entry always leads to a page. */
  function PageAt(m: Machine, d: nat, v: nat): PageData
    requires d in m.space && v in m.space[d]
  {
    var f := m.space[d][v].frame;
    if f < |m.mem| && m.mem[f].Page? then m.mem[f].data else ZeroPage()
  }

  function ZeroPage(): PageData {
    seq(PGSIZE, _ => 0)
  }

  // ---------- writing one page-table entry ----------

  function PutPte(mem: seq<Content>, d: nat, v: nat, p: Pte): seq<Content>
    requires HasTable(mem, d, v / NPTENTRIES)
  {
    var t := TableOf(mem, d, v / NPTENTRIES);
    mem[t := Table(mem[t].ptes[v % NPTENTRIES := p])]
  }

  function ClearPte(mem: seq<Content>, d: nat, v: nat): seq<Content>
    requires HasTable(mem, d, v / NPTENTRIES)
  {
    var t := TableOf(mem, d, v / NPTENTRIES);
    mem[t := Table(mem[t].ptes - {v % NPTENTRIES})]
  }

  function SetIn(space: Space, d: nat, v: nat, p: Pte): Space
    requires d in space
  {
    var pages: map<nat, Pte> := space[d];
    space[d := pages[v := p]]
  }

  function DropIn(space: Space, d: nat, v: nat): Space
    requires d in space
  {
    space[d := space[d] - {v}]
  }

  /** Only tables differ: the directories, the pages and the free frames are the same. */
  ghost predicate SameButTables(a: seq<Content>, b: seq<Content>) {
    |a| == |b| && forall f :: 0 <= f < |a| ==> a[f] == b[f] || (a[f].Table? && b[f].Table?)
  }

  lemma TreeAfterTableWrite(a: seq<Content>, b: seq<Content>, owner: map<nat, (nat, nat)>, s: Space, s': Space)
    requires TreeInv(a, owner, s) && SameButTables(a, b) && s'.Keys == s.Keys
    ensures TreeInv(b, owner, s')
    ensures forall d, x :: HasTable(a, d, x) ==> HasTable(b, d, x) && TableOf(b, d, x) == TableOf(a, d, x)
  {
    forall d, x | HasTable(a, d, x) ensures HasTable(b, d, x) && TableOf(b, d, x) == TableOf(a, d, x) {
    }
  }

  /** Two slots of two directories never share a table. */
  lemma OwnTable(mem: seq<Content>, owner: map<nat, (nat, nat)>, space: Space, d: nat, x: nat, e: nat, y: nat)
    requires TreeInv(mem, owner, space) && d in space && e in space
    requires HasTable(mem, d, x) && HasTable(mem, e, y)
    ensures TableOf(mem, d, x) == TableOf(mem, e, y) ==> d == e && x == y
  {
    assert owner[TableOf(mem, d, x)] == (d, x) && owner[TableOf(mem, e, y)] == (e, y);
  }

  lemma SplitPage(u: nat, v: nat)
    ensures u / NPTENTRIES == v / NPTENTRIES && u % NPTENTRIES == v % NPTENTRIES ==> u == v
  {
  }

  /** What a write to (d, v)'s table shows at (e, u). */
  lemma TableWriteAt(mem: seq<Content>, owner: map<nat, (nat, nat)>, space: Space, d: nat, v: nat,
                     ptes: map<nat, Pte>, e: nat, u: nat)
    requires TreeInv(mem, owner, space) && d in space && e in space
    requires HasTable(mem, d, v / NPTENTRIES)
    requires var old_ptes := mem[TableOf(mem, d, v / NPTENTRIES)].ptes;
             forall i :: i != v % NPTENTRIES ==>
               (i in ptes <==> i in old_ptes) && (i in ptes ==> ptes[i] == old_ptes[i])
    ensures var mem' := mem[TableOf(mem, d, v / NPTENTRIES) := Table(ptes)];
            && (Mapped(mem', e, u) <==> if (e, u) == (d, v) then v % NPTENTRIES in ptes else Mapped(mem, e, u))
            && (Mapped(mem', e, u) ==>
                  PteOf(mem', e, u) == if (e, u) == (d, v) then ptes[v % NPTENTRIES] else PteOf(mem, e, u))
  {
    SplitPage(u, v);
    if HasTable(mem, e, u / NPTENTRIES) {
      OwnTable(mem, owner, space, d, v / NPTENTRIES, e, u / NPTENTRIES);
    }
  }

  lemma PutPteFlat(mem: seq<Content>, owner: map<nat, (nat, nat)>, space: Space, d: nat, v: nat, p: Pte)
    requires TreeInv(mem, owner, space) && FlatInv(mem, space)
    requires d in space && HasTable(mem, d, v / NPTENTRIES) && v < USERPAGES
    ensures var mem', space' := PutPte(mem, d, v, p), SetIn(space, d, v, p);
            SameButTables(mem, mem') && TreeInv(mem', owner, space') && FlatInv(mem', space')
  {
    var mem', space' := PutPte(mem, d, v, p), SetIn(space, d, v, p);
    TreeAfterTableWrite(mem, mem', owner, space, space');
    forall e, u | e in space'
      ensures u in space'[e] <==> Mapped(mem', e, u)
      ensures u in space'[e] ==> space'[e][u] == PteOf(mem', e, u)
    {
      TableWriteAt(mem, owner, space, d, v, mem[TableOf(mem, d, v / NPTENTRIES)].ptes[v % NPTENTRIES := p], e, u);
    }
  }

  lemma ClearPteFlat(mem: seq<Content>, owner: map<nat, (nat, nat)>, space: Space, d: nat, v: nat)
    requires TreeInv(mem, owner, space) && FlatInv(mem, space)
    requires d in space && HasTable(mem, d, v / NPTENTRIES)
    ensures var mem', space' := ClearPte(mem, d, v), DropIn(space, d, v);
            SameButTables(mem, mem') && TreeInv(mem', owner, space') && FlatInv(mem', space')
  {
    var mem', space' := ClearPte(mem, d, v), DropIn(space, d, v);
    TreeAfterTableWrite(mem, mem', owner, space, space');
    forall e, u | e in space'
      ensures u in space'[e] <==> Mapped(mem', e, u)
      ensures u in space'[e] ==> space'[e][u] == PteOf(mem', e, u)
    {
      TableWriteAt(mem, owner, space, d, v, mem[TableOf(mem, d, v / NPTENTRIES)].ptes - {v % NPTENTRIES}, e, u);
    }
  }

  // ---------- kalloc and kfree ----------

  function Alloc(m: Machine): Machine
    requires m.free != [] && m.free[0] < |m.mem|
  {
    m.(free := m.free[1..], mem := m.mem[m.free[0] := Raw])
  }

  function Release(m: Machine, f: nat): Machine
    requires f < |m.mem|
  {
    m.(free := [f] + m.free, mem := m.mem[f := Free])
  }

  function Fill(m: Machine, f: nat, data: PageData): Machine
    requires f < |m.mem|
  {
    m.(mem := m.mem[f := Page(data)])
  }

  /** A frame that no table, directory or page-table entry mentions. */
  ghost predicate Unused(m: Machine, f: nat) {
    && 0 < f < |m.mem| && |m.rm| == |m.mem|
    && f !in m.owner && f !in m.space && m.rm[f] == []
  }

  lemma LooseUnused(m: Machine, loose: set<nat>, f: nat)
    requires Inv(m, loose) && (f in loose || f in m.free)
    ensures Unused(m, f) && !m.mem[f].Kernel?
    ensures f in loose ==> !m.mem[f].Free?
    ensures f in m.free ==> f !in loose
  {
    assert f in m.owner ==> HasTable(m.mem, m.owner[f].0, m.owner[f].1);
    assert m.rm[f] != [] ==> m.rm[f][0] in m.rm[f] && HeldBy(m.at, m.space, f, m.rm[f][0]);
    assert forall d, v :: d in m.space && v in m.space[d] ==> MapsPage(m.mem, m.rm, m.at, m.space, d, v);
  }

  // Rewriting an unused frame disturbs no table and no mapping.

  lemma UnusedTree(mem: seq<Content>, owner: map<nat, (nat, nat)>, space: Space, f: nat, k: Content)
    requires TreeInv(mem, owner, space) && f < |mem| && f !in owner && f !in space
    ensures TreeInv(mem[f := k], owner, space)
    ensures forall d, x :: d in space ==> (HasTable(mem[f := k], d, x) <==> HasTable(mem, d, x))
    ensures forall d, x :: d in space && HasTable(mem, d, x) ==>
              TableOf(mem[f := k], d, x) == TableOf(mem, d, x)
                  && mem[f := k][TableOf(mem, d, x)] == mem[TableOf(mem, d, x)]
  {
    var mem' := mem[f := k];
    forall d, x | d in space ensures HasTable(mem', d, x) <==> HasTable(mem, d, x) {
      assert mem'[d] == mem[d];
    }
  }

  lemma UnusedFlat(mem: seq<Content>, owner: map<nat, (nat, nat)>, space: Space, f: nat, k: Content)
    requires TreeInv(mem, owner, space) && FlatInv(mem, space) && f < |mem| && f !in owner && f !in space
    ensures FlatInv(mem[f := k], space)
  {
    UnusedTree(mem, owner, space, f, k);
    forall d, v: nat | d in space
      ensures Mapped(mem[f := k], d, v) <==> Mapped(mem, d, v)
      ensures Mapped(mem, d, v) ==> PteOf(mem[f := k], d, v) == PteOf(mem, d, v)
    {
      assert HasTable(mem[f := k], d, v / NPTENTRIES) <==> HasTable(mem, d, v / NPTENTRIES);
    }
  }

  lemma UnusedShare(m: Machine, n: Machine, f: nat, k: Content)
    requires ShareInv(m.mem, m.rm, m.at, m.space) && Unused(m, f)
    requires n == m.(mem := m.mem[f := k], free := n.free)
    ensures ShareInv(n.mem, n.rm, n.at, n.space) && Abs(n) == Abs(m)
  {
    forall d, v | d in m.space && v in m.space[d]
      ensures m.space[d][v].frame != f && MapsPage(n.mem, n.rm, n.at, n.space, d, v)
    {
      assert MapsPage(m.mem, m.rm, m.at, m.space, d, v);
    }
    assert forall d :: d in m.space ==> PagesOf(n, d) == PagesOf(m, d);
  }

  lemma FreeAfterAlloc(mem: seq<Content>, free: seq<nat>)
    requires FreeInv(mem, free) && free != []
    ensures free[0] in free && 0 < free[0] < |mem|
    ensures FreeInv(mem[free[0] := Raw], free[1..]) && free[0] !in free[1..]
  {
    assert free[0] in free;
    var mem', free' := mem[free[0] := Raw], free[1..];
    forall f: nat ensures f in free' <==> f < |mem'| && mem'[f] == Free {
      assert f in free' <==> f in free && f != free[0];
    }
  }

  lemma FreeAfterRelease(mem: seq<Content>, free: seq<nat>, f: nat)
    requires FreeInv(mem, free) && f < |mem| && mem[f] != Free && !mem[f].Kernel?
    ensures FreeInv(mem[f := Free], [f] + free)
  {
  }

  lemma FreeAfterWrite(mem: seq<Content>, free: seq<nat>, f: nat, k: Content)
    requires FreeInv(mem, free) && f < |mem| && mem[f] != Free && !mem[f].Kernel? && k != Free
    ensures FreeInv(mem[f := k], free)
  {
  }

  lemma LeakAfterWrite(m: Machine, loose: set<nat>, f: nat, k: Content, loose': set<nat>)
    requires NoLeak(m.mem, m.rm, m.owner, m.space, loose) && Unused(m, f)
    requires k.Free? || k.Raw? || k.Page?
    requires loose' == if k.Free? then loose - {f} else loose + {f}
    ensures NoLeak(m.mem[f := k], m.rm, m.owner, m.space, loose')
  {
  }

  lemma AllocKeeps(m: Machine, loose: set<nat>)
    requires Inv(m, loose) && m.free != []
    ensures m.free[0] < |m.mem|
    ensures Inv(Alloc(m), loose + {m.free[0]}) && Abs(Alloc(m)) == Abs(m)
    ensures m.free[0] !in loose
  {
    hide FreeInv, TreeInv, FlatInv, ShareInv, NoLeak;
    var f := m.free[0];
    FreeAfterAlloc(m.mem, m.free);
    LooseUnused(m, loose, f);
    UnusedTree(m.mem, m.owner, m.space, f, Raw);
    UnusedFlat(m.mem, m.owner, m.space, f, Raw);
    UnusedShare(m, Alloc(m), f, Raw);
    LeakAfterWrite(m, loose, f, Raw, loose + {f});
  }

  lemma ReleaseKeeps(m: Machine, loose: set<nat>, f: nat)
    requires Inv(m, loose) && f in loose
    ensures f < |m.mem| && Inv(Release(m, f), loose - {f}) && Abs(Release(m, f)) == Abs(m)
  {
    hide FreeInv, TreeInv, FlatInv, ShareInv, NoLeak;
    LooseUnused(m, loose, f);
    FreeAfterRelease(m.mem, m.free, f);
    UnusedTree(m.mem, m.owner, m.space, f, Free);
    UnusedFlat(m.mem, m.owner, m.space, f, Free);
    UnusedShare(m, Release(m, f), f, Free);
    LeakAfterWrite(m, loose, f, Free, loose - {f});
  }

  lemma FillKeeps(m: Machine, loose: set<nat>, f: nat, data: PageData)
    requires Inv(m, loose) && f in loose
    ensures f < |m.mem| && Inv(Fill(m, f, data), loose) && Abs(Fill(m, f, data)) == Abs(m)
  {
    hide FreeInv, TreeInv, FlatInv, ShareInv, NoLeak;
    LooseUnused(m, loose, f);
    FreeAfterWrite(m.mem, m.free, f, Page(data));
    UnusedTree(m.mem, m.owner, m.space, f, Page(data));
    UnusedFlat(m.mem, m.owner, m.space, f, Page(data));
    UnusedShare(m, Fill(m, f, data), f, Page(data));
    LeakAfterWrite(m, loose, f, Page(data), loose);
  }

  // ---------- frames for the kernel itself ----------

  /** The kernel keeps frame f for a use of its own. */
  function Keep(m: Machine, f: nat, use: Use): Machine
    requires f < |m.mem|
  {
    m.(mem := m.mem[f := Kernel(use)])
  }

  lemma KeepKeeps(m: Machine, loose: set<nat>, f: nat, use: Use)
    requires Inv(m, loose) && f in loose
    ensures f < |m.mem| && Inv(Keep(m, f, use), loose - {f}) && Abs(Keep(m, f, use)) == Abs(m)
  {
    hide FreeInv, TreeInv, FlatInv, ShareInv, NoLeak;
    LooseUnused(m, loose, f);
    FreeAfterWrite(m.mem, m.free, f, Kernel(use));
    UnusedTree(m.mem, m.owner, m.space, f, Kernel(use));
    UnusedFlat(m.mem, m.owner, m.space, f, Kernel(use));
    UnusedShare(m, Keep(m, f, use), f, Kernel(use));
    LeakAfterKeep(m, loose, f, Kernel(use));
  }

  lemma LeakAfterKeep(m: Machine, loose: set<nat>, f: nat, k: Content)
    requires NoLeak(m.mem, m.rm, m.owner, m.space, loose) && Unused(m, f) && (k.Kernel? || k.Free?)
    ensures NoLeak(m.mem[f := k], m.rm, m.owner, m.space, loose - {f})
  {
  }

  /** No directory, table or page is in a frame that the kernel keeps. */
  lemma KeptUnused(m: Machine, f: nat)
    requires Inv(m, {}) && f < |m.mem| && m.mem[f].Kernel? && m.mem[f].use != Boot
    ensures Unused(m, f)
  {
    assert f in m.owner ==> HasTable(m.mem, m.owner[f].0, m.owner[f].1);
    assert m.rm[f] != [] ==> m.rm[f][0] in m.rm[f] && HeldBy(m.at, m.space, f, m.rm[f][0]);
    assert forall d, v :: d in m.space && v in m.space[d] ==> MapsPage(m.mem, m.rm, m.at, m.space, d, v);
  }

  lemma FreeAfterReturn(mem: seq<Content>, free: seq<nat>, f: nat)
    requires FreeInv(mem, free) && 0 < f < |mem| && mem[f] != Free
    ensures FreeInv(mem[f := Free], [f] + free)
  {
  }

  lemma ReturnKeeps(m: Machine, f: nat)
    requires Inv(m, {}) && f < |m.mem| && m.mem[f].Kernel? && m.mem[f].use != Boot
    ensures Inv(Release(m, f), {}) && Abs(Release(m, f)) == Abs(m)
  {
    KeptUnused(m, f);
    hide FreeInv, TreeInv, FlatInv, ShareInv, NoLeak;
    FreeAfterReturn(m.mem, m.free, f);
    UnusedTree(m.mem, m.owner, m.space, f, Free);
    UnusedFlat(m.mem, m.owner, m.space, f, Free);
    UnusedShare(m, Release(m, f), f, Free);
    LeakAfterKeep(m, {}, f, Free);
    assert {} - {f} == {};
  }

  // ---------- directories and tables come and go ----------

  /** Mappings survive whatever leaves the pages alone and only adds empty spaces. */
  lemma ShareFrame(m: Machine, n: Machine)
    requires ShareInv(m.mem, m.rm, m.at, m.space)
    requires n.rm == m.rm && n.at == m.at && |n.mem| == |m.mem|
    requires forall f :: 0 <= f < |m.mem| && m.mem[f].Page? ==> n.mem[f] == m.mem[f]
    requires forall e :: e in m.space ==> e in n.space && n.space[e] == m.space[e]
    requires forall e :: e in n.space && e !in m.space ==> n.space[e] == map[]
    ensures ShareInv(n.mem, n.rm, n.at, n.space)
    ensures forall e :: e in m.space ==> PagesOf(n, e) == PagesOf(m, e)
  {
    forall e, v | e in m.space && v in m.space[e]
      ensures MapsPage(n.mem, n.rm, n.at, n.space, e, v)
      ensures n.mem[n.space[e][v].frame] == m.mem[m.space[e][v].frame]
    {
      assert MapsPage(m.mem, m.rm, m.at, m.space, e, v);
    }
    forall f, d | 0 <= f < |m.rm| && d in m.rm[f] ensures HeldBy(n.at, n.space, f, d) {
      assert HeldBy(m.at, m.space, f, d);
    }
  }

  /** A loose frame becomes an empty directory. */
  function NewDir(m: Machine, d: nat): Machine
    requires d < |m.mem|
  {
    m.(mem := m.mem[d := Dir(map[])], space := m.space[d := map[]])
  }

  lemma NewDirKeeps(m: Machine, loose: set<nat>, d: nat)
    requires Inv(m, loose) && d in loose && d < |m.mem| && m.mem[d].Raw?
    ensures Inv(NewDir(m, d), loose - {d})
    ensures d != 0 && d !in m.space && Abs(NewDir(m, d)) == Abs(m)[d := map[]]
  {
    hide FreeInv, TreeInv, FlatInv, ShareInv, NoLeak;
    LooseUnused(m, loose, d);
    var n := NewDir(m, d);
    NewDirTree(m.mem, m.owner, m.space, d);
    FreeAfterWrite(m.mem, m.free, d, Dir(map[]));
    ShareFrame(m, n);
    assert PagesOf(n, d) == map[];
    NewDirLeak(m, loose, d);
  }

  lemma NewDirTree(mem: seq<Content>, owner: map<nat, (nat, nat)>, space: Space, d: nat)
    requires TreeInv(mem, owner, space) && FlatInv(mem, space) && d < |mem| && d !in owner && d !in space
    ensures TreeInv(mem[d := Dir(map[])], owner, space[d := map[]])
    ensures FlatInv(mem[d := Dir(map[])], space[d := map[]])
  {
    UnusedTree(mem, owner, space, d, Dir(map[]));
    UnusedFlat(mem, owner, space, d, Dir(map[]));
  }

  lemma NewDirLeak(m: Machine, loose: set<nat>, d: nat)
    requires NoLeak(m.mem, m.rm, m.owner, m.space, loose) && Unused(m, d) && d in loose
    ensures NoLeak(m.mem[d := Dir(map[])], m.rm, m.owner, m.space[d := map[]], loose - {d})
  {
  }

  function WithTable(mem: seq<Content>, d: nat, x: nat, t: nat): seq<Content>
    requires d < |mem| && t < |mem| && mem[d].Dir?
  {
    mem[t := Table(map[])][d := Dir(mem[d].tables[x := t])]
  }

  /** A loose frame becomes an empty table in slot x of directory d. */
  function LinkTable(m: Machine, d: nat, x: nat, t: nat): Machine
    requires d < |m.mem| && t < |m.mem| && m.mem[d].Dir?
  {
    m.(mem := WithTable(m.mem, d, x, t), owner := m.owner[t := (d, x)])
  }

  lemma LinkTableAt(mem: seq<Content>, owner: map<nat, (nat, nat)>, space: Space, d: nat, x: nat, t: nat, e: nat,
                    y: nat)
    requires TreeInv(mem, owner, space) && d in space && e in space && t < |mem| && t !in owner && t !in space
    ensures var mem' := WithTable(mem, d, x, t);
            && (HasTable(mem', e, y) <==> (e, y) == (d, x) || HasTable(mem, e, y))
            && (HasTable(mem', e, y) ==>
                  && TableOf(mem', e, y) == (if (e, y) == (d, x) then t else TableOf(mem, e, y))
                  && mem'[TableOf(mem', e, y)] == (if (e, y) == (d, x) then Table(map[]) else mem[TableOf(mem, e, y)]))
            && (y in mem'[e].tables <==> (e, y) == (d, x) || y in mem[e].tables)
  {
    if y in mem[e].tables { assert HasTable(mem, e, y) && TableOf(mem, e, y) in owner; }
  }

  lemma LinkTableTree(mem: seq<Content>, owner: map<nat, (nat, nat)>, space: Space, d: nat, x: nat, t: nat)
    requires TreeInv(mem, owner, space) && d in space && t < |mem| && t !in owner && t !in space
    requires x !in mem[d].tables
    ensures TreeInv(WithTable(mem, d, x, t), owner[t := (d, x)], space) && HasTable(WithTable(mem, d, x, t), d, x)
  {
    var mem', owner' := WithTable(mem, d, x, t), owner[t := (d, x)];
    forall e, y | e in space && y in mem'[e].tables
      ensures HasTable(mem', e, y) && TableOf(mem', e, y) in owner' && owner'[TableOf(mem', e, y)] == (e, y)
    {
      LinkTableAt(mem, owner, space, d, x, t, e, y);
    }
    LinkTableAt(mem, owner, space, d, x, t, d, x);
    forall u | u in owner
      ensures HasTable(mem', owner[u].0, owner[u].1) && TableOf(mem', owner[u].0, owner[u].1) == u
    {
      LinkTableAt(mem, owner, space, d, x, t, owner[u].0, owner[u].1);
    }
  }

  lemma LinkTableFlat(mem: seq<Content>, owner: map<nat, (nat, nat)>, space: Space, d: nat, x: nat, t: nat)
    requires TreeInv(mem, owner, space) && FlatInv(mem, space)
    requires d in space && t < |mem| && t !in owner && t !in space && x !in mem[d].tables
    ensures FlatInv(WithTable(mem, d, x, t), space)
  {
    var mem' := WithTable(mem, d, x, t);
    forall e, v: nat | e in space
      ensures Mapped(mem', e, v) <==> Mapped(mem, e, v)
      ensures Mapped(mem, e, v) ==> PteOf(mem', e, v) == PteOf(mem, e, v)
    {
      LinkTableAt(mem, owner, space, d, x, t, e, v / NPTENTRIES);
    }
  }

  lemma LinkTableKeeps(m: Machine, loose: set<nat>, d: nat, x: nat, t: nat)
    requires Inv(m, loose) && t in loose && t < |m.mem| && m.mem[t].Raw?
    requires d in m.space && d < |m.mem| && m.mem[d].Dir? && x !in m.mem[d].tables && x < NPTENTRIES
    ensures Inv(LinkTable(m, d, x, t), loose - {t})
    ensures HasTable(LinkTable(m, d, x, t).mem, d, x) && Abs(LinkTable(m, d, x, t)) == Abs(m)
  {
    hide FreeInv, TreeInv, FlatInv, ShareInv, NoLeak;
    LooseUnused(m, loose, t);
    LinkTableTree(m.mem, m.owner, m.space, d, x, t);
    LinkTableFlat(m.mem, m.owner, m.space, d, x, t);
    ShareFrame(m, LinkTable(m, d, x, t));
    FreeAfterWrite(m.mem, m.free, t, Table(map[]));
    FreeAfterWrite(m.mem[t := Table(map[])], m.free, d, Dir(m.mem[d].tables[x := t]));
    LinkTableLeak(m, loose, d, x, t);
  }

  lemma LinkTableLeak(m: Machine, loose: set<nat>, d: nat, x: nat, t: nat)
    requires NoLeak(m.mem, m.rm, m.owner, m.space, loose) && Unused(m, t) && t in loose
    requires d in m.space && d < |m.mem| && m.mem[d].Dir? && x < NPTENTRIES
    ensures NoLeak(WithTable(m.mem, d, x, t), m.rm, m.owner[t := (d, x)], m.space, loose - {t})
  {
  }

  // ---------- mapping, unmapping, protecting and writing a page ----------

  /** d maps frame f at page v. */
  function MapPage(m: Machine, d: nat, v: nat, f: nat, w: bool): Machine
    requires HasTable(m.mem, d, v / NPTENTRIES) && d in m.space && f < |m.rm|
  {
    m.(mem := PutPte(m.mem, d, v, Pte(f, w)),
       rm := m.rm[f := AddHolder(m.rm[f], d)],
       at := m.at[f := v],
       space := SetIn(m.space, d, v, Pte(f, w)))
  }

  /** d no longer maps page v. */
  function Unmap(m: Machine, d: nat, v: nat): Machine
    requires HasTable(m.mem, d, v / NPTENTRIES) && d in m.space && v in m.space[d]
    requires m.space[d][v].frame < |m.rm|
  {
    var f := m.space[d][v].frame;
    m.(mem := ClearPte(m.mem, d, v),
       rm := m.rm[f := RemoveHolder(m.rm[f], d)],
       space := DropIn(m.space, d, v))
  }

  /** d's permission on page v becomes w. */
  function Protect(m: Machine, d: nat, v: nat, w: bool): Machine
    requires HasTable(m.mem, d, v / NPTENTRIES) && d in m.space && v in m.space[d]
  {
    var p := Pte(m.space[d][v].frame, w);
    m.(mem := PutPte(m.mem, d, v, p), space := SetIn(m.space, d, v, p))
  }

  /** The hardware writes one byte through a writable entry. */
  function Poke(m: Machine, d: nat, v: nat, off: nat, b: int): Machine
    requires d in m.space && v in m.space[d] && off < PGSIZE
    requires m.space[d][v].frame < |m.mem|
  {
    m.(mem := m.mem[m.space[d][v].frame := Page(PageAt(m, d, v)[off := b])])
  }

  lemma MappedHasTable(m: Machine, loose: set<nat>, d: nat, v: nat)
    requires Inv(m, loose) && d in m.space && v in m.space[d]
    ensures HasTable(m.mem, d, v / NPTENTRIES)
    ensures m.space[d][v].frame < |m.mem| && |m.rm| == |m.mem| && v < USERPAGES && d != 0
    ensures MapsPage(m.mem, m.rm, m.at, m.space, d, v)
    ensures Mapped(m.mem, d, v) && m.space[d][v] == PteOf(m.mem, d, v)
  {
    assert Mapped(m.mem, d, v);
  }

  /** A frame that d may start to map at v: loose, or held by others read-only at v. */
  ghost predicate Shareable(m: Machine, d: nat, v: nat, f: nat, w: bool) {
    && f < |m.mem| && |m.rm| == |m.mem| && m.mem[f].Page?
    && d !in m.rm[f] && |m.rm[f]| < NPROC
    && (m.rm[f] != [] ==>
          && !w && f in m.at && m.at[f] == v
          && forall e :: e in m.rm[f] && e in m.space && v in m.space[e] ==> !m.space[e][v].w)
  }

  /** n shows data at (d, v), and elsewhere what m shows. */
  ghost predicate PutsData(m: Machine, n: Machine, d: nat, v: nat, data: PageData) {
    && d in m.space && n.space.Keys == m.space.Keys
    && v in n.space[d] && PageAt(n, d, v) == data
    && (forall e, u :: e in n.space && (e, u) != (d, v) ==>
          (u in n.space[e] <==> u in m.space[e]) && (u in m.space[e] ==> PageAt(n, e, u) == PageAt(m, e, u)))
  }

  lemma AbsPut(m: Machine, n: Machine, d: nat, v: nat, data: PageData)
    requires PutsData(m, n, d, v, data)
    ensures d in m.space && Abs(n) == Abs(m)[d := PagesOf(m, d)[v := data]]
  {
    hide PageAt;
    forall e | e in n.space
      ensures PagesOf(n, e) == if e == d then PagesOf(m, d)[v := data] else PagesOf(m, e)
    {
      assert forall u :: (e, u) != (d, v) && u in m.space[e] ==> PageAt(n, e, u) == PageAt(m, e, u);
    }
  }

  lemma MapPageAt(m: Machine, d: nat, v: nat, f: nat, w: bool, e: nat, u: nat)
    requires ShareInv(m.mem, m.rm, m.at, m.space) && Shareable(m, d, v, f, w)
    requires HasTable(m.mem, d, v / NPTENTRIES) && d in m.space && v !in m.space[d]
    requires var n := MapPage(m, d, v, f, w); e in n.space && u in n.space[e]
    ensures var n := MapPage(m, d, v, f, w);
            && MapsPage(n.mem, n.rm, n.at, n.space, e, u)
            && ((e, u) != (d, v) ==>
                  && e in m.space && u in m.space[e] && MapsPage(m.mem, m.rm, m.at, m.space, e, u)
                  && PageAt(n, e, u) == PageAt(m, e, u))
            && ((e, u) == (d, v) ==> PageAt(n, d, v) == m.mem[f].data)
  {
    if (e, u) != (d, v) {
      assert MapsPage(m.mem, m.rm, m.at, m.space, e, u);
    }
  }

  lemma MapPageHeld(m: Machine, d: nat, v: nat, f: nat, w: bool)
    requires ShareInv(m.mem, m.rm, m.at, m.space) && Shareable(m, d, v, f, w)
    requires HasTable(m.mem, d, v / NPTENTRIES) && d in m.space && v !in m.space[d]
    ensures var n := MapPage(m, d, v, f, w);
            && (forall g :: 0 <= g < |n.rm| ==> Distinct(n.rm[g]) && |n.rm[g]| <= NPROC)
            && (forall g, e :: 0 <= g < |n.rm| && e in n.rm[g] ==> HeldBy(n.at, n.space, g, e))
  {
    var n := MapPage(m, d, v, f, w);
    assert n.rm[f] == m.rm[f] + [d];
    forall g, e | 0 <= g < |n.rm| && e in n.rm[g] ensures HeldBy(n.at, n.space, g, e) {
      if e in m.rm[g] { assert HeldBy(m.at, m.space, g, e); }
    }
  }

  lemma MapPageShare(m: Machine, d: nat, v: nat, f: nat, w: bool)
    requires ShareInv(m.mem, m.rm, m.at, m.space) && Shareable(m, d, v, f, w)
    requires HasTable(m.mem, d, v / NPTENTRIES) && d in m.space && v !in m.space[d]
    ensures var n := MapPage(m, d, v, f, w);
            && ShareInv(n.mem, n.rm, n.at, n.space)
            && Abs(n) == Abs(m)[d := PagesOf(m, d)[v := m.mem[f].data]]
  {
    var n := MapPage(m, d, v, f, w);
    MapPageHeld(m, d, v, f, w);
    forall e, u | e in n.space && u in n.space[e]
      ensures MapsPage(n.mem, n.rm, n.at, n.space, e, u)
      ensures (e, u) != (d, v) ==> PageAt(n, e, u) == PageAt(m, e, u)
    {
      MapPageAt(m, d, v, f, w, e, u);
    }
    MapPageAt(m, d, v, f, w, d, v);
    AbsPut(m, n, d, v, m.mem[f].data);
  }

  lemma MapPageKeeps(m: Machine, loose: set<nat>, d: nat, v: nat, f: nat, w: bool)
    requires Inv(m, loose) && Shareable(m, d, v, f, w)
    requires HasTable(m.mem, d, v / NPTENTRIES) && d in m.space && v !in m.space[d] && v < USERPAGES
    ensures Inv(MapPage(m, d, v, f, w), loose - {f})
    ensures Abs(MapPage(m, d, v, f, w)) == Abs(m)[d := PagesOf(m, d)[v := m.mem[f].data]]
  {
    var n := MapPage(m, d, v, f, w);
    hide FreeInv, TreeInv, FlatInv, ShareInv, NoLeak;
    PutPteFlat(m.mem, m.owner, m.space, d, v, Pte(f, w));
    MapPageShare(m, d, v, f, w);
    FreeSameButTables(m.mem, n.mem, m.free);
    MapPageLeak(m, loose, d, v, f, w);
  }

  lemma FreeSameButTables(mem: seq<Content>, mem': seq<Content>, free: seq<nat>)
    requires FreeInv(mem, free) && SameButTables(mem, mem')
    ensures FreeInv(mem', free)
  {
  }

  lemma MapPageLeak(m: Machine, loose: set<nat>, d: nat, v: nat, f: nat, w: bool)
    requires NoLeak(m.mem, m.rm, m.owner, m.space, loose) && Shareable(m, d, v, f, w)
    requires HasTable(m.mem, d, v / NPTENTRIES) && d in m.space
    ensures var n := MapPage(m, d, v, f, w); NoLeak(n.mem, n.rm, n.owner, n.space, loose - {f})
  {
    var n := MapPage(m, d, v, f, w);
    assert n.rm[f] != [];
  }

  // Unmapping.

  ghost predicate DropsPage(m: Machine, n: Machine, d: nat, v: nat) {
    && d in m.space && n.space == DropIn(m.space, d, v)
    && (forall e, u :: e in n.space && u in n.space[e] ==> PageAt(n, e, u) == PageAt(m, e, u))
  }

  lemma AbsDrop(m: Machine, n: Machine, d: nat, v: nat)
    requires DropsPage(m, n, d, v)
    ensures d in m.space && Abs(n) == Abs(m)[d := PagesOf(m, d) - {v}]
  {
    hide PageAt;
    forall e | e in n.space
      ensures PagesOf(n, e) == if e == d then PagesOf(m, d) - {v} else PagesOf(m, e)
    {
      assert forall u :: u in n.space[e] ==> PageAt(n, e, u) == PageAt(m, e, u);
    }
  }

  lemma UnmapAt(m: Machine, d: nat, v: nat, e: nat, u: nat)
    requires ShareInv(m.mem, m.rm, m.at, m.space)
    requires HasTable(m.mem, d, v / NPTENTRIES) && d in m.space && v in m.space[d]
    requires m.space[d][v].frame < |m.rm|
    requires var n := Unmap(m, d, v); e in n.space && u in n.space[e]
    ensures var n := Unmap(m, d, v);
            MapsPage(n.mem, n.rm, n.at, n.space, e, u) && PageAt(n, e, u) == PageAt(m, e, u)
  {
    var f := m.space[d][v].frame;
    assert MapsPage(m.mem, m.rm, m.at, m.space, e, u);
    assert MapsPage(m.mem, m.rm, m.at, m.space, d, v);
    RemoveIsExact(m.rm[f], d);
    if m.space[e][u].frame == f {
      // a second holder: the frame was shared, hence read-only
      assert e != d && e in m.rm[f] && d in m.rm[f];
      assert |m.rm[f]| > 1;
    }
  }

  lemma UnmapShare(m: Machine, d: nat, v: nat)
    requires ShareInv(m.mem, m.rm, m.at, m.space)
    requires HasTable(m.mem, d, v / NPTENTRIES) && d in m.space && v in m.space[d]
    requires m.space[d][v].frame < |m.rm|
    ensures var n := Unmap(m, d, v);
            ShareInv(n.mem, n.rm, n.at, n.space) && Abs(n) == Abs(m)[d := PagesOf(m, d) - {v}]
  {
    var n, f := Unmap(m, d, v), m.space[d][v].frame;
    RemoveIsExact(m.rm[f], d);
    forall e, u | e in n.space && u in n.space[e]
      ensures MapsPage(n.mem, n.rm, n.at, n.space, e, u) && PageAt(n, e, u) == PageAt(m, e, u)
    {
      UnmapAt(m, d, v, e, u);
    }
    assert MapsPage(m.mem, m.rm, m.at, m.space, d, v);
    forall g, e | 0 <= g < |n.rm| && e in n.rm[g] ensures HeldBy(n.at, n.space, g, e) {
      assert HeldBy(m.at, m.space, g, e);
    }
    AbsDrop(m, n, d, v);
  }

  /** The frame becomes loose when its last holder leaves, and not before. */
  function LooseAfterUnmap(m: Machine, loose: set<nat>, d: nat, v: nat): set<nat>
    requires HasTable(m.mem, d, v / NPTENTRIES) && d in m.space && v in m.space[d]
    requires m.space[d][v].frame < |m.rm|
  {
    var f := m.space[d][v].frame;
    if Unmap(m, d, v).rm[f] == [] then loose + {f} else loose
  }

  lemma UnmapKeeps(m: Machine, loose: set<nat>, d: nat, v: nat)
    requires Inv(m, loose) && d in m.space && v in m.space[d]
    ensures HasTable(m.mem, d, v / NPTENTRIES) && m.space[d][v].frame < |m.rm|
    ensures Inv(Unmap(m, d, v), LooseAfterUnmap(m, loose, d, v))
    ensures Abs(Unmap(m, d, v)) == Abs(m)[d := PagesOf(m, d) - {v}]
    ensures |Unmap(m, d, v).rm[m.space[d][v].frame]| == |m.rm[m.space[d][v].frame]| - 1
  {
    hide FreeInv, TreeInv, FlatInv, ShareInv, NoLeak, MapsPage;
    MappedHasTable(m, loose, d, v);
    ClearPteFlat(m.mem, m.owner, m.space, d, v);
    UnmapShare(m, d, v);
    FreeSameButTables(m.mem, Unmap(m, d, v).mem, m.free);
    MappedHeld(m, loose, d, v);
    UnmapLeak(m, loose, d, v);
  }

  lemma MappedHeld(m: Machine, loose: set<nat>, d: nat, v: nat)
    requires Inv(m, loose) && d in m.space && v in m.space[d]
    ensures var f := m.space[d][v].frame;
            && f < |m.mem| && |m.rm| == |m.mem| && m.mem[f].Page? && f !in loose
            && d in m.rm[f] && Distinct(m.rm[f])
  {
    assert MapsPage(m.mem, m.rm, m.at, m.space, d, v);
  }

  lemma UnmapLeak(m: Machine, loose: set<nat>, d: nat, v: nat)
    requires NoLeak(m.mem, m.rm, m.owner, m.space, loose) && HasTable(m.mem, d, v / NPTENTRIES)
    requires d in m.space && v in m.space[d]
    requires var f := m.space[d][v].frame;
             f < |m.mem| && m.mem[f].Page? && f !in loose && d in m.rm[f] && Distinct(m.rm[f])
    ensures var n := Unmap(m, d, v); NoLeak(n.mem, n.rm, n.owner, n.space, LooseAfterUnmap(m, loose, d, v))
    ensures |Unmap(m, d, v).rm[m.space[d][v].frame]| == |m.rm[m.space[d][v].frame]| - 1
  {
    RemoveIsExact(m.rm[m.space[d][v].frame], d);
    LeakSameButTables(m.mem, Unmap(m, d, v).mem, m.rm, m.owner, m.space, Unmap(m, d, v).space, loose);
  }

  // Changing a permission.

  lemma ProtectAt(m: Machine, d: nat, v: nat, w: bool, e: nat, u: nat)
    requires ShareInv(m.mem, m.rm, m.at, m.space) && d in m.space && v in m.space[d]
    requires HasTable(m.mem, d, v / NPTENTRIES)
    requires m.space[d][v].frame < |m.rm| && (w ==> |m.rm[m.space[d][v].frame]| == 1)
    requires e in m.space && u in m.space[e]
    ensures var n := Protect(m, d, v, w);
            && e in n.space && u in n.space[e]
            && MapsPage(n.mem, n.rm, n.at, n.space, e, u) && PageAt(n, e, u) == PageAt(m, e, u)
  {
    assert MapsPage(m.mem, m.rm, m.at, m.space, e, u);
  }

  lemma ProtectShare(m: Machine, d: nat, v: nat, w: bool)
    requires ShareInv(m.mem, m.rm, m.at, m.space) && d in m.space && v in m.space[d]
    requires HasTable(m.mem, d, v / NPTENTRIES)
    requires m.space[d][v].frame < |m.rm| && (w ==> |m.rm[m.space[d][v].frame]| == 1)
    ensures var n := Protect(m, d, v, w); ShareInv(n.mem, n.rm, n.at, n.space) && Abs(n) == Abs(m)
  {
    var n := Protect(m, d, v, w);
    forall e, u | e in n.space && u in n.space[e]
      ensures MapsPage(n.mem, n.rm, n.at, n.space, e, u) && PageAt(n, e, u) == PageAt(m, e, u)
    {
      ProtectAt(m, d, v, w, e, u);
    }
    ProtectHeld(m, d, v, w);
    hide MapsPage, HeldBy, PageAt;
    AbsPut(m, n, d, v, PageAt(m, d, v));
    assert PagesOf(m, d)[v := PageAt(m, d, v)] == PagesOf(m, d);
  }

  lemma ProtectKeeps(m: Machine, loose: set<nat>, d: nat, v: nat, w: bool)
    requires Inv(m, loose) && d in m.space && v in m.space[d]
    requires m.space[d][v].frame < |m.rm| && (w ==> |m.rm[m.space[d][v].frame]| == 1)
    ensures HasTable(m.mem, d, v / NPTENTRIES)
    ensures Inv(Protect(m, d, v, w), loose) && Abs(Protect(m, d, v, w)) == Abs(m)
  {
    hide FreeInv, TreeInv, FlatInv, ShareInv, NoLeak, MapsPage;
    MappedHasTable(m, loose, d, v);
    var n := Protect(m, d, v, w);
    PutPteFlat(m.mem, m.owner, m.space, d, v, Pte(m.space[d][v].frame, w));
    ProtectShare(m, d, v, w);
    FreeSameButTables(m.mem, n.mem, m.free);
    LeakSameButTables(m.mem, n.mem, m.rm, m.owner, m.space, n.space, loose);
  }

  lemma LeakSameButTables(mem: seq<Content>, mem': seq<Content>, rm: seq<seq<nat>>, owner: map<nat, (nat, nat)>,
                          space: Space, space': Space, loose: set<nat>)
    requires NoLeak(mem, rm, owner, space, loose) && SameButTables(mem, mem') && space'.Keys == space.Keys
    ensures NoLeak(mem', rm, owner, space', loose)
  {
  }

  lemma ProtectHeld(m: Machine, d: nat, v: nat, w: bool)
    requires ShareInv(m.mem, m.rm, m.at, m.space) && d in m.space && v in m.space[d]
    requires HasTable(m.mem, d, v / NPTENTRIES)
    ensures var n := Protect(m, d, v, w);
            forall f, e :: 0 <= f < |n.rm| && e in n.rm[f] ==> HeldBy(n.at, n.space, f, e)
  {
    forall f, e | 0 <= f < |m.rm| && e in m.rm[f]
      ensures HeldBy(m.at, Protect(m, d, v, w).space, f, e)
    {
      assert HeldBy(m.at, m.space, f, e);
    }
  }

  lemma PokeShare(m: Machine, d: nat, v: nat, off: nat, b: int)
    requires ShareInv(m.mem, m.rm, m.at, m.space) && d in m.space && v in m.space[d] && off < PGSIZE && m.space[d][v].w
    requires m.space[d][v].frame < |m.mem|
    ensures var n := Poke(m, d, v, off, b);
            && ShareInv(n.mem, n.rm, n.at, n.space)
            && Abs(n) == Abs(m)[d := PagesOf(m, d)[v := PageAt(m, d, v)[off := b]]]
  {
    var n, f := Poke(m, d, v, off, b), m.space[d][v].frame;
    var data := PageAt(m, d, v)[off := b];
    assert MapsPage(m.mem, m.rm, m.at, m.space, d, v);
    forall e, u | e in n.space && u in n.space[e]
      ensures MapsPage(n.mem, n.rm, n.at, n.space, e, u)
      ensures PageAt(n, e, u) == if (e, u) == (d, v) then data else PageAt(m, e, u)
    {
      assert MapsPage(m.mem, m.rm, m.at, m.space, e, u);
      // the frame has one holder, so another process's page is another frame
      if m.space[e][u].frame == f { assert e in m.rm[f] && d in m.rm[f]; }
    }
    hide MapsPage, PageAt;
    AbsPut(m, n, d, v, data);
  }

  /** Writing through a writable entry shows to its one holder only. */
  lemma PokeKeeps(m: Machine, loose: set<nat>, d: nat, v: nat, off: nat, b: int)
    requires Inv(m, loose) && d in m.space && v in m.space[d] && off < PGSIZE && m.space[d][v].w
    ensures m.space[d][v].frame < |m.mem| && Inv(Poke(m, d, v, off, b), loose)
    ensures Abs(Poke(m, d, v, off, b)) == Abs(m)[d := PagesOf(m, d)[v := PageAt(m, d, v)[off := b]]]
  {
    MappedHeld(m, loose, d, v);
    hide FreeInv, TreeInv, FlatInv, ShareInv, NoLeak, MapsPage;
    PageWriteTables(m, loose, m.space[d][v].frame, Page(PageAt(m, d, v)[off := b]));
    PokeShare(m, d, v, off, b);
  }

  lemma PageWriteTables(m: Machine, loose: set<nat>, f: nat, k: Content)
    requires Inv(m, loose) && f < |m.mem| && m.mem[f].Page? && k.Page?
    ensures var mem' := m.mem[f := k];
            && TreeInv(mem', m.owner, m.space) && FlatInv(mem', m.space)
            && FreeInv(mem', m.free) && NoLeak(mem', m.rm, m.owner, m.space, loose)
  {
    assert f in m.owner ==> HasTable(m.mem, m.owner[f].0, m.owner[f].1);
    UnusedTree(m.mem, m.owner, m.space, f, k);
    UnusedFlat(m.mem, m.owner, m.space, f, k);
  }

  // ---------- a directory goes ----------

  function TablesOf(owner: map<nat, (nat, nat)>, d: nat): set<nat> {
    set t | t in owner && owner[t].0 == d
  }

  /** A directory with no pages left, and its tables, become loose. */
  function Detach(m: Machine, d: nat): Machine {
    m.(owner := m.owner - TablesOf(m.owner, d), space := m.space - {d})
  }

  lemma DetachKeeps(m: Machine, loose: set<nat>, d: nat)
    requires Inv(m, loose) && d in m.space && m.space[d] == map[]
    ensures Inv(Detach(m, d), loose + {d} + TablesOf(m.owner, d))
    ensures Abs(Detach(m, d)) == Abs(m) - {d}
    ensures d < |m.mem| && m.mem[d].Dir? && d !in TablesOf(m.owner, d)
    ensures forall x :: x in m.mem[d].tables ==> x < NPTENTRIES && m.mem[d].tables[x] in TablesOf(m.owner, d)
    ensures forall x, y :: x in m.mem[d].tables && y in m.mem[d].tables && x != y ==>
            m.mem[d].tables[x] != m.mem[d].tables[y]
    ensures forall t :: t in TablesOf(m.owner, d) ==> exists x :: x in m.mem[d].tables && m.mem[d].tables[x] == t
  {
    hide FreeInv, ShareInv, FlatInv, TreeInv, NoLeak;
    DetachTree(m.mem, m.owner, m.space, d);
    DetachShare(m, d);
    DetachTables(m, loose, d);
    DetachLeak(m, loose, d);
  }

  lemma DetachTables(m: Machine, loose: set<nat>, d: nat)
    requires TreeInv(m.mem, m.owner, m.space) && NoLeak(m.mem, m.rm, m.owner, m.space, loose) && d in m.space
    ensures d < |m.mem| && m.mem[d].Dir? && d !in TablesOf(m.owner, d)
    ensures forall x :: x in m.mem[d].tables ==> x < NPTENTRIES && m.mem[d].tables[x] in TablesOf(m.owner, d)
    ensures forall x, y :: x in m.mem[d].tables && y in m.mem[d].tables && x != y ==>
            m.mem[d].tables[x] != m.mem[d].tables[y]
    ensures forall t :: t in TablesOf(m.owner, d) ==> exists x :: x in m.mem[d].tables && m.mem[d].tables[x] == t
  {
    forall x, y | x in m.mem[d].tables && y in m.mem[d].tables && x != y
      ensures m.mem[d].tables[x] != m.mem[d].tables[y]
    {
      OwnTable(m.mem, m.owner, m.space, d, x, d, y);
    }
  }

  lemma DetachTree(mem: seq<Content>, owner: map<nat, (nat, nat)>, space: Space, d: nat)
    requires TreeInv(mem, owner, space) && FlatInv(mem, space) && d in space
    ensures TreeInv(mem, owner - TablesOf(owner, d), space - {d}) && FlatInv(mem, space - {d})
  {
    var owner' := owner - TablesOf(owner, d);
    forall e, x | e in space && e != d && x in mem[e].tables
      ensures HasTable(mem, e, x) && TableOf(mem, e, x) in owner' && owner'[TableOf(mem, e, x)] == (e, x)
    {
      assert HasTable(mem, e, x) && owner[TableOf(mem, e, x)] == (e, x);
    }
    assert forall t :: t in owner' ==> t in owner && owner'[t] == owner[t] && owner[t].0 != d;
  }

  lemma DetachShare(m: Machine, d: nat)
    requires ShareInv(m.mem, m.rm, m.at, m.space) && d in m.space && m.space[d] == map[]
    ensures ShareInv(m.mem, m.rm, m.at, m.space - {d}) && Abs(Detach(m, d)) == Abs(m) - {d}
  {
    var n := Detach(m, d);
    forall e, u | e in n.space && u in n.space[e] ensures MapsPage(n.mem, n.rm, n.at, n.space, e, u) {
      assert MapsPage(m.mem, m.rm, m.at, m.space, e, u);
    }
    forall f, e | 0 <= f < |m.rm| && e in m.rm[f] ensures HeldBy(n.at, n.space, f, e) {
      assert HeldBy(m.at, m.space, f, e);
    }
    assert forall e :: e in n.space ==> PagesOf(n, e) == PagesOf(m, e);
  }

  lemma DetachLeak(m: Machine, loose: set<nat>, d: nat)
    requires NoLeak(m.mem, m.rm, m.owner, m.space, loose) && TreeInv(m.mem, m.owner, m.space) && d in m.space
    ensures var n := Detach(m, d); NoLeak(n.mem, n.rm, n.owner, n.space, loose + {d} + TablesOf(m.owner, d))
  {
    forall t | t in TablesOf(m.owner, d) ensures t < |m.mem| && m.mem[t].Table? {
      assert HasTable(m.mem, m.owner[t].0, m.owner[t].1);
    }
    hide TreeInv, HasTable;
  }

  // ---------- exact frame accounting ----------

  /** Every frame is free, loose, a page with at least one holder, a table of one
      directory slot, a live directory, or the kernel's own. */
  lemma FramesPartition(m: Machine, loose: set<nat>, f: nat)
    requires Inv(m, loose) && f < |m.mem| && |m.rm| == |m.mem|
    ensures m.mem[f].Free? <==> f in m.free
    ensures f in loose || m.mem[f].Free? || m.mem[f].Kernel?
              || (m.mem[f].Page? && m.rm[f] != []) || (m.mem[f].Table? && f in m.owner)
              || (m.mem[f].Dir? && f in m.space)
    ensures f in loose ==> f !in m.free && m.rm[f] == [] && f !in m.owner && f !in m.space
  {
    if f in loose { LooseUnused(m, loose, f); }
  }

  /** A frame's holders are exactly the directories that map it. */
  lemma HoldersExact(m: Machine, loose: set<nat>, f: nat, d: nat)
    requires Inv(m, loose) && f < |m.mem| && |m.rm| == |m.mem|
    ensures Distinct(m.rm[f])
    ensures d in m.rm[f] <==> d in m.space && exists v :: v in m.space[d] && m.space[d][v].frame == f
  {
    if d in m.rm[f] {
      assert HeldBy(m.at, m.space, f, d);
    }
    assert forall v :: d in m.space && v in m.space[d] ==> MapsPage(m.mem, m.rm, m.at, m.space, d, v);
  }

  /** A writable entry is its frame's only mapping by anyone. */
  lemma WritableIsPrivate(m: Machine, d: nat, v: nat, e: nat, u: nat)
    requires ShareInv(m.mem, m.rm, m.at, m.space)
    requires d in m.space && v in m.space[d] && e in m.space && u in m.space[e]
    requires m.space[d][v].w && m.space[e][u].frame == m.space[d][v].frame
    ensures e == d && u == v
  {
    assert MapsPage(m.mem, m.rm, m.at, m.space, d, v);
    assert MapsPage(m.mem, m.rm, m.at, m.space, e, u);
    hide ShareInv;
    var q := m.rm[m.space[d][v].frame];
    assert q == [q[0]];
  }

  /** When the same things are in use, the same frames are free. */
  lemma SameUseSameFree(m: Machine, n: Machine)
    requires Inv(m, {}) && Inv(n, {}) && |m.mem| == |n.mem|
    requires n.owner.Keys == m.owner.Keys && n.space.Keys == m.space.Keys && n.rm == m.rm
    requires forall f :: 0 <= f < |m.mem| ==> (m.mem[f].Kernel? <==> n.mem[f].Kernel?)
    ensures forall f :: f in n.free <==> f in m.free
    ensures |n.free| == |m.free|
  {
    forall f: nat | f < |m.mem| ensures m.mem[f] == Free <==> n.mem[f] == Free {
      SameFrameFree(m, n, f);
      SameFrameFree(n, m, f);
    }
    DistinctSize(n.free);
    DistinctSize(m.free);
    assert Elements(n.free) == Elements(m.free);
  }

  lemma SameFrameFree(m: Machine, n: Machine, f: nat)
    requires Inv(m, {}) && Inv(n, {}) && |m.mem| == |n.mem| && f < |m.mem|
    requires n.owner.Keys == m.owner.Keys && n.space.Keys == m.space.Keys && n.rm == m.rm
    requires m.mem[f].Kernel? <==> n.mem[f].Kernel?
    ensures m.mem[f] == Free ==> n.mem[f] == Free
  {
    FramesPartition(n, {}, f);
    if m.mem[f] == Free { LooseUnused(m, {}, f); }
  }

  function Elements(q: seq<nat>): set<nat> {
    set x | x in q
  }

  lemma {:induction false} DistinctSize(q: seq<nat>)
    requires Distinct(q)
    ensures |Elements(q)| == |q|
  {
    if q != [] {
      var rest := q[1..];
      assert forall j :: 0 <= j < |rest| ==> rest[j] == q[j + 1] != q[0];
      DistinctSize(rest);
      assert forall x :: x in q <==> x == q[0] || x in rest;
      assert Elements(q) == Elements(rest) + {q[0]};
    }
  }
}
