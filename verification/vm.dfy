/**
 The virtual-memory code of vm.c, cow.c and kalloc.c over one physical memory.
 Methods follow the source's loops and its rollback paths; addresses count pages
 except where the source takes byte sizes. kalloc's call of swap_out on an empty
 free list is the failure that these methods' callers handle.
*/
module Vm {
  import opened Common
  import opened Rmap
  import opened VmModel
  import opened VmSteps

  class Vm {
    var mem: seq<Content>
    var free: seq<nat>
    var numFree: nat
    const rmap: Rmap
    ghost var owner: map<nat, (nat, nat)>
    ghost var at: map<nat, nat>
    ghost var space: Space

    ghost function M(): Machine
      reads this, rmap
    {
      Machine(mem, free, rmap.holders, owner, at, space)
    }

    ghost predicate Valid(loose: set<nat>)
      reads this, rmap, rmap.node
    {
      rmap.Valid() && numFree == |free| && Inv(M(), loose)
    }

    /** Memory after boot: frame 0 and the kernel image, then free frames. */
    constructor (frames: nat, kernel: nat)
      requires 0 < kernel <= frames
      ensures Valid({}) && fresh(rmap) && fresh(rmap.node)
      ensures space == map[] && |mem| == frames && numFree == frames - kernel
      ensures forall f :: 0 <= f < frames ==> mem[f] == if f < kernel then Kernel(Boot) else Free
    {
      mem := seq(frames, i => if i < kernel then Kernel(Boot) else Free);
      free := seq(frames - kernel, i => kernel + i);
      numFree := frames - kernel;
      rmap := new Rmap(frames);
      owner, at, space := map[], map[], map[];
      new;
      forall f: nat | kernel <= f < frames ensures f in free {
        assert free[f - kernel] == f;
      }
    }

    // ---------- kalloc.c ----------

    method Kalloc(ghost loose: set<nat>) returns (f: nat)
      requires Valid(loose)
      modifies this`mem, this`free, this`numFree
      ensures f == 0 <==> old(free) == []
      ensures f == 0 ==> M() == old(M()) && Valid(loose)
      ensures f != 0 ==> |free| == |old(free)| - 1
      ensures f != 0 ==>
                && f == old(free)[0] && f !in loose
                && f < |old(mem)| && old(mem)[f] == Free && mem == old(mem)[f := Raw]
                && Valid(loose + {f}) && GrewTables(old(M()), M()) && owner == old(owner)
    {
      if free == [] { return 0; }
      f := free[0];
      AllocKeeps(M(), loose);
      FreeAfterAlloc(mem, free);
      mem := mem[f := Raw];
      free := free[1..];
      numFree := numFree - 1;
      assert M() == Alloc(old(M()));
    }

    /** The caller says what becomes of the invariant: kfree only pushes the frame. */
    method Kfree(f: nat)
      requires f < |mem| && numFree == |free|
      modifies this`mem, this`free, this`numFree
      ensures M() == Release(old(M()), f) && numFree == |free|
    {
      mem := mem[f := Free];
      free := [f] + free;
      numFree := numFree + 1;
    }

    /** kalloc for the kernel's own use: a kernel stack, or a pipe. */
    method TakeKernel(use: Use) returns (f: nat)
      requires Valid({})
      modifies this`mem, this`free, this`numFree
      ensures Valid({}) && Abs(M()) == Abs(old(M()))
      ensures f == 0 <==> old(free) == []
      ensures f == 0 ==> M() == old(M())
      ensures f != 0 ==> |free| == |old(free)| - 1 && f < |old(mem)| && old(mem)[f] == Free
                           && mem == old(mem)[f := Kernel(use)]
    {
      hide Inv, Abs;
      f := Kalloc({});
      if f == 0 { return; }
      assert {} + {f} == {f} && {f} - {f} == {};
      KeepKeeps(M(), {f}, f, use);
      ghost var m := M();
      mem := mem[f := Kernel(use)];
      assert M() == Keep(m, f, use);
    }

    /** kfree of such a frame. */
    method GiveKernel(f: nat)
      requires Valid({}) && f < |mem| && mem[f].Kernel? && mem[f].use != Boot
      modifies this`mem, this`free, this`numFree
      ensures Valid({}) && Abs(M()) == Abs(old(M()))
      ensures mem == old(mem)[f := Free] && |free| == |old(free)| + 1
    {
      hide Inv, Abs;
      ReturnKeeps(M(), f);
      Kfree(f);
    }

    // ---------- page tables ----------

    /** The table for page v of d, made if asked for and missing; 0 if there is none. */
    method WalkPgdir(d: nat, v: nat, alloc: bool, ghost loose: set<nat>) returns (t: nat)
      requires Valid(loose) && d in space && v / NPTENTRIES < NPTENTRIES
      modifies this`mem, this`free, this`numFree, this`owner
      ensures Valid(loose) && GrewTables(old(M()), M()) && GrewOwner(old(owner), owner, d)
      ensures |free| >= |old(free)| - 1
      ensures !alloc ==> M() == old(M())
      ensures t == 0 ==> M() == old(M()) && !HasTable(mem, d, v / NPTENTRIES)
      ensures t == 0 && alloc ==> free == []
      ensures t != 0 ==> HasTable(mem, d, v / NPTENTRIES) && TableOf(mem, d, v / NPTENTRIES) == t
    {
      hide Inv;
      var x := v / NPTENTRIES;
      DirHasTables(d, x, loose);
      if x in mem[d].tables {
        t := mem[d].tables[x];
      } else {
        if !alloc { return 0; }
        t := Kalloc(loose);
        if t == 0 { return; }
        LooseUnused(M(), loose + {t}, t);
        label before:
        LinkTableKeeps(M(), loose + {t}, d, x, t);
        assert loose + {t} - {t} == loose;
        mem := mem[t := Table(map[])];
        mem := mem[d := Dir(mem[d].tables[x := t])];
        owner := owner[t := (d, x)];
        assert M() == LinkTable(old@before(M()), d, x, t);
      }
    }

    lemma DirHasTables(d: nat, x: nat, loose: set<nat>)
      requires Valid(loose) && d in space
      ensures d < |mem| && mem[d].Dir?
      ensures x in mem[d].tables <==> HasTable(mem, d, x)
      ensures HasTable(mem, d, x) ==> TableOf(mem, d, x) != 0
    {
    }

    /** mappages for one page: d's entry for v becomes frame f. False if a table
        could not be had. The caller then tells the reverse map. */
    method MapOne(d: nat, v: nat, f: nat, w: bool, ghost loose: set<nat>) returns (ok: bool, ghost grown: Machine)
      requires Valid(loose) && d in space && v < USERPAGES && v !in space[d]
      requires f < |mem| && mem[f].Page?
      modifies this`mem, this`free, this`numFree, this`owner
      ensures Inv(grown, loose) && GrewTables(old(M()), grown) && numFree == |free|
      ensures GrewOwner(old(owner), owner, d) && |free| >= |old(free)| - 1
      ensures !ok ==> M() == old(M()) == grown && free == []
      ensures ok ==> HasTable(grown.mem, d, v / NPTENTRIES)
                       && M() == grown.(mem := PutPte(grown.mem, d, v, Pte(f, w)))
    {
      hide Inv;
      var t := WalkPgdir(d, v, true, loose);
      grown := M();
      if t == 0 { return false, grown; }
      var ptes := mem[t].ptes;
      mem := mem[t := Table(ptes[v % NPTENTRIES := Pte(f, w)])];
      return true, grown;
    }

    /** One page of deallocuvm: v, whose entry is in table t. */
    method FreePage(d: nat, v: nat, t: nat, ghost loose: set<nat>)
      requires Valid(loose) && Freeable(M(), d, v)
      requires TableOf(mem, d, v / NPTENTRIES) == t
      modifies this`mem, this`free, this`numFree, this`space, rmap, rmap.node
      ensures Valid(loose) && M() == FreedPage(old(M()), d, v)
    {
      hide Inv;
      ghost var m := M();
      FreedPageKeeps(m, loose, d, v);
      MappedHasTable(m, loose, d, v);
      var ptes := mem[t].ptes;
      var f := ptes[v % NPTENTRIES].frame;
      rmap.Rm(f, d);
      var cnt := rmap.GetCnt(f);
      if cnt == 0 {
        Kfree(f);
      }
      mem := mem[t := Table(ptes - {v % NPTENTRIES})];
      space := DropIn(space, d, v);
      assert M() == FreedPage(m, d, v);
    }

    /** Frees d's pages from newsz up to oldsz (in bytes), each frame when its last
        holder leaves; a missing table is stepped over whole. */
    method DeallocUvm(d: nat, oldsz: nat, newsz: nat, ghost loose: set<nat>) returns (sz: nat)
      requires Valid(loose) && d in space && oldsz <= KERNBASE
      modifies this`mem, this`free, this`numFree, this`owner, this`space, rmap, rmap.node
      ensures Valid(loose)
      ensures sz == if newsz >= oldsz then oldsz else newsz
      ensures newsz >= oldsz ==> M() == old(M())
      ensures newsz < oldsz ==> Dropped(old(M()), M(), d, Pages(newsz), Pages(oldsz))
    {
      hide Inv, Dropped;
      if newsz >= oldsz { return oldsz; }
      ghost var m0 := M();
      ghost var lo := Pages(newsz);
      var v := (newsz + PGSIZE - 1) / PGSIZE;
      DroppedNothing(m0, d, lo);
      while v * PGSIZE < oldsz
        invariant lo <= v && Valid(loose) && d in space
        invariant Dropped(m0, M(), d, lo, if v <= Pages(oldsz) then v else Pages(oldsz))
        decreases oldsz - v * PGSIZE
      {
        ghost var m := M();
        var t := WalkPgdir(d, v, false, loose);
        if t == 0 {
          NoTableNoPage(m, loose, d, v);
          ghost var w := (v / NPTENTRIES + 1) * NPTENTRIES;
          DroppedHole(m0, m, loose, d, lo, v, if w <= Pages(oldsz) then w else Pages(oldsz));
          v := (v / NPTENTRIES + 1) * NPTENTRIES - 1;
        } else {
          InTable(m, loose, d, v);
          if v % NPTENTRIES in mem[t].ptes {
            DroppedPage(m0, m, loose, d, lo, v);
            FreePage(d, v, t, loose);
          } else {
            DroppedHole(m0, m, loose, d, lo, v, v + 1);
          }
        }
        v := v + 1;
      }
      return newsz;
    }

    /** The first process's page: the initial program, padded with zeros. False if
        memory ran out, which the source does not check. */
    method InitUvm(d: nat, init: seq<int>) returns (ok: bool)
      requires Valid({}) && d in space && space[d] == map[] && |init| < PGSIZE
      modifies this, rmap, rmap.node
      ensures ok ==> Valid({}) && space.Keys == old(space.Keys)
      ensures ok ==> Abs(M()) == Abs(old(M()))[d := OnePage(Padded(init, |init|))]
      ensures ok ==> SameBut(old(M()), M())
      ensures !ok ==> |old(free)| < 2
    {
      hide Inv, Abs, Padded, ZeroPage;
      ghost var m0 := M();
      var f;
      PagesAbs(m0, d);
      f, ok := MapZeros(d, 0);
      if !ok { return; }
      PaddedNext(init, 0);
      assert PagesOf(m0, d)[0 := Padded(init, 0)] == OnePage(Padded(init, 0));
      var i := 0;
      while i < |init|
        invariant 0 <= i <= |init| && Valid({}) && space == SetIn(m0.space, d, 0, Pte(f, true))
        invariant Abs(M()) == Abs(m0)[d := OnePage(Padded(init, i))] && SameBut(m0, M())
      {
        ghost var m := M();
        PagesAbs(m, d);
        PagesAt(m, d, 0);
        PaddedNext(init, i);
        MappedHeld(m, {}, d, 0);
        PokeKeeps(m, {}, d, 0, i, init[i]);
        mem := mem[f := Page(mem[f].data[i := init[i]])];
        assert M() == Poke(m, d, 0, i, init[i]);
        assert PagesOf(m, d)[0 := Padded(init, i + 1)] == OnePage(Padded(init, i + 1));
        i := i + 1;
      }
    }

    /** One page of allocuvm: takes a frame, zeroes it, maps it at v and records the
        holder. If the frame was had but not its table, the frame is left to the caller. */
    method MapZeros(d: nat, v: nat) returns (f: nat, ok: bool)
      requires Valid({}) && d in space && v !in space[d] && v < USERPAGES
      modifies this, rmap, rmap.node
      ensures f == 0 ==> !ok && Valid({}) && M() == old(M()) && free == []
      ensures f != 0 && !ok ==> Valid({f}) && GrewTables(old(M()), M()) && free == []
      ensures |free| >= |old(free)| - 2 && (!ok ==> |old(free)| < 2)
      ensures ok ==> Valid({}) && space == SetIn(old(space), d, v, Pte(f, true)) && SameBut(old(M()), M())
                       && Abs(M()) == Abs(old(M()))[d := PagesOf(old(M()), d)[v := ZeroPage()]]
    {
      hide Inv, Abs, PagesOf, Unused, AddHolder, ZeroPage, GrewOwner;
      ghost var m0 := M();
      LiveDir(m0, {}, d);
      f := Kalloc({});
      if f == 0 { return 0, false; }
      assert {} + {f} == {f};
      FillKeeps(M(), {f}, f, ZeroPage());
      mem := mem[f := Page(ZeroPage())];
      ghost var grown;
      ok, grown := MapOne(d, v, f, true, {f});
      if !ok { return; }
      MappedZeros(m0, grown, d, v, f);
      rmap.Add(f, d);
      at := at[f := v];
      space := SetIn(space, d, v, Pte(f, true));
      assert M() == MapPage(grown, d, v, f, true);
    }

    /** allocuvm out of memory at page v: drops the new pages and the frame in hand. */
    method TakeBack(d: nat, oldsz: nat, newsz: nat, f: nat, ghost m0: Machine, ghost v: nat)
      requires Valid(if f == 0 then {} else {f}) && Pages(oldsz) <= v < Pages(newsz) && newsz < KERNBASE
      requires d in m0.space && Grown(m0, M(), d, Pages(oldsz), v)
      requires forall u :: Pages(oldsz) <= u < Pages(newsz) ==> u !in m0.space[d]
      modifies this, rmap, rmap.node
      ensures Valid({}) && space == m0.space && Abs(M()) == Abs(m0) && SameBut(m0, M())
    {
      hide Inv, Grown, Dropped, Abs;
      ghost var n, loose := M(), if f == 0 then {} else {f};
      assert d in space by { GrownFacts(m0, n, d, Pages(oldsz), v); }
      var sz := DeallocUvm(d, newsz, oldsz, loose);
      GrownUndone(m0, n, M(), d, Pages(oldsz), v, Pages(newsz));
      if f != 0 {
        LooseUnused(M(), loose, f);
        ReleaseKeeps(M(), loose, f);
        assert loose - {f} == {};
        Kfree(f);
      }
    }

    /** Grows d from oldsz to newsz bytes with zeroed pages. Out of memory, it takes
        back what it mapped and returns 0. */
    method AllocUvm(d: nat, oldsz: nat, newsz: nat) returns (sz: nat)
      requires Valid({}) && d in space
      requires forall u :: Pages(oldsz) <= u < Pages(newsz) ==> u !in space[d]
      modifies this, rmap, rmap.node
      ensures Valid({})
      ensures newsz >= KERNBASE ==> sz == 0 && M() == old(M())
      ensures newsz < KERNBASE && newsz < oldsz ==> sz == oldsz && M() == old(M())
      ensures oldsz <= newsz < KERNBASE ==>
                || (sz == newsz && Grown(old(M()), M(), d, Pages(oldsz), Pages(newsz)))
                || (sz == 0 && space == old(space) && Abs(M()) == Abs(old(M())) && SameBut(old(M()), M())
                    && |old(free)| < 2 * (Pages(newsz) - Pages(oldsz)))
    {
      hide Inv, Grown, Dropped, Abs, GrewTables, SameBut;
      if newsz >= KERNBASE { return 0; }
      if newsz < oldsz { return oldsz; }
      ghost var m0, lo := M(), Pages(oldsz);
      GrownNothing(m0, d, lo);
      var v := (oldsz + PGSIZE - 1) / PGSIZE;
      while v * PGSIZE < newsz
        invariant lo <= v <= Pages(newsz) && Valid({}) && Grown(m0, M(), d, lo, v)
        invariant |free| >= |m0.free| - 2 * (v - lo)
        decreases newsz - v * PGSIZE
      {
        ghost var m := M();
        GrownFacts(m0, m, d, lo, v);
        var f, ok := MapZeros(d, v);
        if !ok {
          assert |m.free| < 2;
          GrownSame(m0, m, M(), d, lo, v);
          TakeBack(d, oldsz, newsz, f, m0, v);
          return 0;
        }
        GrownPage(m0, m, M(), d, lo, v, f);
        v := v + 1;
      }
      return newsz;
    }

    /** Frees d's user pages, then its page tables, then d itself. */
    method FreeVm(d: nat)
      requires Valid({}) && d in space
      modifies this, rmap, rmap.node
      ensures Valid({}) && Freed(old(M()), M(), d)
    {
      hide Inv, Freed, Dropped, Abs, SameBut, TablesFrom, OneSlotEach;
      ghost var m0 := M();
      var sz := DeallocUvm(d, KERNBASE, 0, {});
      DroppedAll(m0, M(), d);
      DetachKeeps(M(), {}, d);
      ghost var m1 := M();
      ghost var dir := mem[d].tables;
      DetachedLoose(m1, d);
      owner := owner - TablesOf(owner, d);
      space := space - {d};
      var i := 0;
      while i < NPTENTRIES
        invariant 0 <= i <= NPTENTRIES && Valid({d} + TablesFrom(dir, i))
        invariant d < |mem| == |m1.mem| && mem[d] == Dir(dir) && d !in TablesFrom(dir, i) && OneSlotEach(dir)
        invariant M() == Detach(m1, d).(mem := mem, free := free) && Abs(M()) == Abs(Detach(m1, d)) && SameBut(m1, M())
      {
        TablesFromStep(dir, i);
        if i in mem[d].tables {
          var t := mem[d].tables[i];
          ReleasedLoose(m1, M(), {d} + TablesFrom(dir, i), t);
          assert {d} + TablesFrom(dir, i) - {t} == {d} + TablesFrom(dir, i + 1);
          Kfree(t);
        }
        i := i + 1;
      }
      TablesFromStep(dir, NPTENTRIES);
      assert {d} + TablesFrom(dir, NPTENTRIES) - {d} == {};
      ReleasedLoose(m1, M(), {d} + TablesFrom(dir, NPTENTRIES), d);
      Kfree(d);
      AllFreed(m0, m1, M(), d);
    }

    /** A directory with a table in each of the kernel's slots and no user page; 0 if memory ran out,
        and then everything is given back. */
    method SetupKvm() returns (d: nat)
      requires Valid({})
      modifies this, rmap, rmap.node
      ensures Valid({})
      ensures d != 0 ==> WithDir(old(M()), M(), d) && |free| >= |old(free)| - |KSLOTS| - 1
      ensures d != 0 ==> HasSlots(owner, d, |KSLOTS|)
      ensures d == 0 ==> SameUse(old(M()), M()) && |old(free)| < |KSLOTS| + 1
    {
      hide Inv, Freed, Abs;
      ghost var m0 := M();
      d := Kalloc({});
      if d == 0 { return; }
      assert {} + {d} == {d} && {d} - {d} == {};
      NewDirKeeps(M(), {d}, d);
      mem := mem[d := Dir(map[])];
      space := space[d := map[]];
      assert HasSlots(owner, d, 0);
      hide HasSlots, HasSlot;
      var k := 0;
      while k < |KSLOTS|
        invariant 0 <= k <= |KSLOTS| && Valid({}) && WithDir(m0, M(), d)
        invariant |free| >= |m0.free| - 1 - k
        invariant HasSlots(owner, d, k)
      {
        ghost var m := M();
        var t := WalkPgdir(d, KSLOTS[k] * NPTENTRIES, true, {});
        WithDirStill(m0, m, M(), d);
        if t == 0 {
          FreeVm(d);
          SetupUndone(m0, m, M(), d);
          return 0;
        }
        SlotTaken(M(), d, KSLOTS[k]);
        SlotsStay(m.owner, owner, d, k);
        k := k + 1;
      }
    }

    /** Page i of copyuvm: p's entry loses its write bit, and c gets the same entry.
        False if c's table could not be had. */
    method CopyOne(p: nat, c: nat, i: nat, ghost m0: Machine) returns (ok: bool)
      requires Valid({}) && Copied(m0, M(), p, c, i) && CanShare(m0, p, i) && i < USERPAGES
      modifies this, rmap, rmap.node
      ensures Valid({}) && |free| >= |old(free)| - 1
      ensures ok ==> Copied(m0, M(), p, c, i + 1)
      ensures !ok ==> Copied(m0, M(), p, c, i) && old(free) == []
    {
      hide Inv, Copied, Abs, GrewTables, GrewOwner, SameBut, CanShare, AddHolder, PagesOf;
      ghost var m := M();
      CopiedFacts(m0, m, p, c, i);
      CanShareStill(m0, m, p, c, i);
      MappedHasTable(m, {}, p, i);
      LiveDir(m, {}, p);
      var t := WalkPgdir(p, i, false, {});
      var ptes := mem[t].ptes;
      var f := ptes[i % NPTENTRIES].frame;
      CopiedProtected(m0, m, p, c, i);
      mem := mem[t := Table(ptes[i % NPTENTRIES := Pte(f, false)])];
      space := SetIn(space, p, i, Pte(f, false));
      assert M() == Protect(m, p, i, false);
      ghost var m1 := M();
      CopiedFacts(m0, m1, p, c, i);
      ghost var grown;
      ok, grown := MapOne(c, i, f, false, {});
      if !ok { return; }
      CopiedStill(m0, m1, grown, p, c, i);
      CopiedPage(m0, grown, p, c, i);
      rmap.Add(f, c);
      at := at[f := i];
      space := SetIn(space, c, i, Pte(f, false));
      assert M() == MapPage(grown, c, i, f, false);
    }

    /** A copy of p's first sz bytes that shares p's frames; both sides lose write
        permission. 0 if memory ran out. The source panics on a missing page. */
    method CopyUvm(p: nat, sz: nat) returns (c: nat)
      requires Valid({}) && p in space && sz <= KERNBASE
      requires forall u :: 0 <= u < Pages(sz) ==> CanShare(M(), p, u)
      modifies this, rmap, rmap.node
      ensures Valid({})
      ensures c != 0 ==> c !in old(space) && Abs(M()) == Abs(old(M()))[c := TakePages(PagesOf(old(M()), p), Pages(sz))]
      ensures c != 0 ==> c in space && forall u :: u in space[c] ==>
                u in old(space)[p] && space[c][u].frame == old(space)[p][u].frame
      ensures SameBut(old(M()), M())
      ensures c == 0 ==> SameUse(old(M()), M()) && |old(free)| < |KSLOTS| + 1 + Pages(sz)
    {
      hide Inv, Freed, Copied, CanShare, Abs;
      ghost var m0 := M();
      c := SetupKvm();
      if c == 0 { return; }
      CopiedNothing(m0, M(), p, c);
      var i := 0;
      while i * PGSIZE < sz
        invariant 0 <= i <= Pages(sz) && Valid({}) && Copied(m0, M(), p, c, i)
        invariant |free| >= |m0.free| - |KSLOTS| - 1 - i
        decreases sz - i * PGSIZE
      {
        var ok := CopyOne(p, c, i, m0);
        if !ok {
          ghost var m := M();
          assert |m0.free| < |KSLOTS| + 1 + Pages(sz);
          CopiedFacts(m0, m, p, c, i);
          FreeVm(c);
          CopyUndone(m0, m, M(), p, c, i);
          return 0;
        }
        i := i + 1;
      }
      CopiedAll(m0, M(), p, c, i);
    }

    // ---------- using memory ----------

    /** The fault handler on a mapped page: a sole holder gets write permission back, a
        sharer gets a copy of its own. False if there is no frame for the copy. */
    method PageFault(d: nat, v: nat) returns (ok: bool)
      requires Valid({}) && d in space && v in space[d]
      modifies this, rmap, rmap.node
      ensures Valid({}) && Abs(M()) == Abs(old(M())) && SameBut(old(M()), M())
      ensures ok ==> d in space && v in space[d] && space[d][v].w
      ensures ok && |old(rmap.holders)[old(space)[d][v].frame]| == 1 ==>
                free == old(free) && space[d][v].frame == old(space)[d][v].frame
      ensures !ok ==> M() == old(M()) && free == [] && !space[d][v].w && |rmap.holders[space[d][v].frame]| > 1
    {
      hide Inv, Abs, PagesOf, PageAt;
      ghost var m := M();
      MappedHasTable(m, {}, d, v);
      MappedHeld(m, {}, d, v);
      LiveDir(m, {}, d);
      var t := WalkPgdir(d, v, false, {});
      var ptes := mem[t].ptes;
      if ptes[v % NPTENTRIES].w { return true; }
      var pa := ptes[v % NPTENTRIES].frame;
      var cnt := rmap.GetCnt(pa);
      if cnt == 1 {
        ProtectKeeps(m, {}, d, v, true);
        mem := mem[t := Table(ptes[v % NPTENTRIES := Pte(pa, true)])];
        space := SetIn(space, d, v, Pte(pa, true));
        assert M() == Protect(m, d, v, true);
        return true;
      }
      ok := CopyPage(d, v, t, pa);
    }

    /** The copying half of rmap_pgflt. */
    method CopyPage(d: nat, v: nat, t: nat, pa: nat) returns (ok: bool)
      requires Valid({}) && Freeable(M(), d, v) && TableOf(mem, d, v / NPTENTRIES) == t
      requires pa == space[d][v].frame && |rmap.holders[pa]| != 1
      modifies this, rmap, rmap.node
      ensures Valid({}) && Abs(M()) == Abs(old(M())) && SameBut(old(M()), M())
      ensures ok ==> d in space && v in space[d] && space[d][v].w
      ensures !ok ==> M() == old(M()) && free == []
    {
      hide Inv, Abs, PagesOf, GrewTables, AddHolder, RemoveHolder, Unused, PageAt, MapsPage, Unmap, MapPage, DropIn,
           GrewOwner, SameBut, ZeroPage;
      ghost var m0 := M();
      MappedHasTable(m0, {}, d, v);
      MappedHeld(m0, {}, d, v);
      LiveDir(m0, {}, d);
      SameAsItself(m0);
      var f := Kalloc({});
      if f == 0 { return false; }
      assert {} + {f} == {f};
      CowFill(m0, M(), d, v, f);
      mem := mem[f := mem[pa]];
      ghost var m := M();
      CowCopied(m0, m, d, v, f);
      var ptes := mem[t].ptes;
      rmap.Rm(pa, d);
      rmap.Add(f, d);
      mem := mem[t := Table(ptes[v % NPTENTRIES := Pte(f, true)])];
      at := at[f := v];
      space := SetIn(space, d, v, Pte(f, true));
      assert ptes[v % NPTENTRIES := Pte(f, true)] == (ptes - {v % NPTENTRIES})[v % NPTENTRIES := Pte(f, true)];
      CowMachine(m, M(), d, v, f);
      CowSame(m0, M(), f, t);
      return true;
    }

    method Present(d: nat, v: nat) returns (yes: bool)
      requires Valid({}) && d in space
      ensures yes <==> v in space[d]
    {
      hide Inv;
      DirHasTables(d, v / NPTENTRIES, {});
      if v / NPTENTRIES !in mem[d].tables {
        NoTableNoPage(M(), {}, d, v);
        return false;
      }
      InTable(M(), {}, d, v);
      return v % NPTENTRIES in mem[mem[d].tables[v / NPTENTRIES]].ptes;
    }

    /** A user load from a mapped page. */
    method Load(d: nat, va: nat) returns (b: int)
      requires Valid({}) && d in space && va / PGSIZE in space[d]
      ensures b == PagesOf(M(), d)[va / PGSIZE][va % PGSIZE]
    {
      hide Inv;
      var v := va / PGSIZE;
      MappedHasTable(M(), {}, d, v);
      MappedHeld(M(), {}, d, v);
      var pte := mem[mem[d].tables[v / NPTENTRIES]].ptes[v % NPTENTRIES];
      b := mem[pte.frame].data[va % PGSIZE];
    }

    /** A user store to a mapped page, after a fault if the page is not writable. */
    method Store(d: nat, va: nat, b: int) returns (ok: bool)
      requires Valid({}) && d in space && va / PGSIZE in space[d]
      modifies this, rmap, rmap.node
      ensures Valid({}) && SameBut(old(M()), M())
      ensures ok ==> var v, pages := va / PGSIZE, PagesOf(old(M()), d);
                     Abs(M()) == Abs(old(M()))[d := pages[v := pages[v][va % PGSIZE := b]]]
      ensures !ok ==> M() == old(M()) && free == []
    {
      hide Inv, Abs, PagesOf;
      var v := va / PGSIZE;
      PagesAbs(M(), d);
      ok := PageFault(d, v);
      if !ok { return; }
      ghost var m := M();
      PagesAbs(m, d);
      PagesAt(m, d, v);
      MappedHasTable(m, {}, d, v);
      MappedHeld(m, {}, d, v);
      var pte := mem[mem[d].tables[v / NPTENTRIES]].ptes[v % NPTENTRIES];
      PokeKeeps(m, {}, d, v, va % PGSIZE, b);
      mem := mem[pte.frame := Page(mem[pte.frame].data[va % PGSIZE := b])];
      assert M() == Poke(m, d, v, va % PGSIZE, b);
    }
  }
}
