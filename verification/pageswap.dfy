/**
 Swapping of pages that one process owns (pageswap.c, mkfs.c): find_slot,
 write_page_to_slot, write_slotnums_to_ptes and swap_in. Which page to evict, and which
 frame a fault is given, are up to the caller.
*/
module PageSwap {
  import opened VmModel

  const SWAPBLOCKS: nat := 400 * 8
  const NSWAP: nat := SWAPBLOCKS / 8
  const BLOCK: nat := 512
  /** mkfs puts the log after the boot block, the super block and the swap blocks. */
  const LOGSTART: nat := 2 + SWAPBLOCKS

  type Block = b: seq<int> | |b| == BLOCK witness seq(BLOCK, _ => 0)

  /** A page directory and a page of it. */
  datatype Key = Key(dir: nat, page: nat)

  /** A page-table entry: present, or the number of a slot. */
  datatype Entry = Present(frame: nat) | Swapped(slot: nat)

  datatype Slot = Slot(isFree: bool, holders: seq<nat>)

  // ---------- slots on disk ----------

  function SlotBlock(s: nat, i: nat): nat {
    2 + s * 8 + i
  }

  /** A slot's blocks lie between the super block and the log, and are its own. */
  lemma SlotsDisjoint(s: nat, i: nat, t: nat, j: nat)
    requires s < NSWAP && t < NSWAP && i < 8 && j < 8
    ensures 2 <= SlotBlock(s, i) < LOGSTART
    ensures SlotBlock(s, i) == SlotBlock(t, j) ==> s == t && i == j
  {
  }

  /** Slot s holds the page, a block for each eighth of it. */
  ghost predicate Holds(disk: seq<Block>, s: nat, data: PageData) {
    s < NSWAP && |disk| >= LOGSTART && forall i: nat :: i < 8 ==> Eighth(disk, s, data, i)
  }

  ghost predicate Eighth(disk: seq<Block>, s: nat, data: PageData, i: nat)
    requires s < NSWAP && |disk| >= LOGSTART && i < 8
  {
    disk[SlotBlock(s, i)] == data[BLOCK * i..BLOCK * (i + 1)]
  }

  /** A page is its eight eighths. */
  lemma EighthsAre(a: PageData, b: PageData)
    requires forall i: nat :: i < 8 ==> a[BLOCK * i..BLOCK * (i + 1)] == b[BLOCK * i..BLOCK * (i + 1)]
    ensures a == b
  {
    forall k: nat | k < PGSIZE ensures a[k] == b[k] {
      var i := k / BLOCK;
      assert a[BLOCK * i..BLOCK * (i + 1)][k - BLOCK * i] == b[BLOCK * i..BLOCK * (i + 1)][k - BLOCK * i];
    }
  }

  // ---------- the invariant ----------

  ghost predicate SlotInv(pte: map<Key, Entry>, slots: seq<Slot>) {
    && |slots| == NSWAP
    && (forall s :: 0 <= s < NSWAP ==> (slots[s].isFree <==> slots[s].holders == []))
    && (forall k :: k in pte && pte[k].Swapped? ==> pte[k].slot < NSWAP && slots[pte[k].slot].holders == [k.dir])
    && (forall k, l :: k in pte && l in pte && k != l && pte[k].Swapped? && pte[l].Swapped? ==>
          pte[k].slot != pte[l].slot)
  }

  /** Present pages have frames of their own, and none of them is up for grabs. */
  ghost predicate FrameInv(pte: map<Key, Entry>, frames: nat, spare: set<nat>) {
    && (forall k :: k in pte && pte[k].Present? ==> pte[k].frame < frames && pte[k].frame !in spare)
    && (forall k, l :: k in pte && l in pte && k != l && pte[k].Present? && pte[l].Present? ==>
          pte[k].frame != pte[l].frame)
  }

  /** Wherever each page is, its bytes are there. */
  ghost predicate BytesInv(pte: map<Key, Entry>, mem: seq<PageData>, disk: seq<Block>, bytes: map<Key, PageData>) {
    && pte.Keys == bytes.Keys && |disk| >= LOGSTART
    && forall k :: k in pte ==> BytesAt(pte[k], mem, disk, bytes[k])
  }

  ghost predicate BytesAt(e: Entry, mem: seq<PageData>, disk: seq<Block>, data: PageData) {
    match e
    case Present(f) => f < |mem| && mem[f] == data
    case Swapped(s) => Holds(disk, s, data)
  }

  /** Another slot's blocks do not change when one slot is written. */
  lemma OtherSlot(disk: seq<Block>, disk': seq<Block>, s: nat, t: nat, data: PageData)
    requires Holds(disk, t, data) && s != t && s < NSWAP && |disk'| == |disk|
    requires forall b :: 0 <= b < |disk| && !(SlotBlock(s, 0) <= b < SlotBlock(s, 8)) ==> disk'[b] == disk[b]
    ensures Holds(disk', t, data)
  {
    forall i: nat | i < 8 ensures Eighth(disk', t, data, i) {
      assert Eighth(disk, t, data, i);
      assert !(SlotBlock(s, 0) <= SlotBlock(t, i) < SlotBlock(s, 8));
    }
  }

  ghost predicate AllInv(pte: map<Key, Entry>, slots: seq<Slot>, mem: seq<PageData>, disk: seq<Block>, spare: set<nat>,
                         bytes: map<Key, PageData>)
  {
    && SlotInv(pte, slots) && FrameInv(pte, |mem|, spare) && BytesInv(pte, mem, disk, bytes)
    && forall f :: f in spare ==> f < |mem|
  }

  /** Nothing outside the swap blocks is different. */
  ghost predicate SwapOnly(disk: seq<Block>, disk': seq<Block>) {
    |disk'| == |disk| && forall b :: 0 <= b < |disk| && !(2 <= b < LOGSTART) ==> disk'[b] == disk[b]
  }

  ghost predicate SlotOnly(disk: seq<Block>, disk': seq<Block>, s: nat) {
    |disk'| == |disk| && forall b :: 0 <= b < |disk| && !(SlotBlock(s, 0) <= b < SlotBlock(s, 8)) ==>
        disk'[b] == disk[b]
  }

  lemma EvictKeeps(pte: map<Key, Entry>, slots: seq<Slot>, mem: seq<PageData>, disk: seq<Block>, spare: set<nat>,
                   bytes: map<Key, PageData>, k: Key, s: nat, disk': seq<Block>)
    requires AllInv(pte, slots, mem, disk, spare, bytes) && k in pte && pte[k].Present? && pte[k].frame < |mem|
    requires s < NSWAP && slots[s].isFree && Holds(disk', s, mem[pte[k].frame]) && SlotOnly(disk, disk', s)
    ensures AllInv(pte[k := Swapped(s)], slots[s := Slot(false, [k.dir])], mem, disk', spare + {pte[k].frame}, bytes)
    ensures SwapOnly(disk, disk')
  {
    SlotsDisjoint(s, 0, s, 7);
    var p := pte[k := Swapped(s)];
    forall l | l in p ensures BytesAt(p[l], mem, disk', bytes[l]) {
      assert BytesAt(pte[l], mem, disk, bytes[l]);
      if p[l].Swapped? && l != k { OtherSlot(disk, disk', s, p[l].slot, bytes[l]); }
    }
  }

  lemma FaultKeeps(pte: map<Key, Entry>, slots: seq<Slot>, mem: seq<PageData>, disk: seq<Block>, spare: set<nat>,
                   bytes: map<Key, PageData>, k: Key, f: nat)
    requires AllInv(pte, slots, mem, disk, spare, bytes) && k in pte && pte[k].Swapped? && f in spare
    ensures f < |mem| && k in bytes && pte[k].slot < NSWAP && Holds(disk, pte[k].slot, bytes[k])
    ensures slots[pte[k].slot].holders == [k.dir]
    ensures AllInv(pte[k := Present(f)], slots[pte[k].slot := Slot(true, [])], mem[f := bytes[k]], disk, spare - {f},
            bytes)
  {
    assert BytesAt(pte[k], mem, disk, bytes[k]);
    var p := pte[k := Present(f)];
    forall l | l in p ensures BytesAt(p[l], mem[f := bytes[k]], disk, bytes[l]) {
      assert BytesAt(pte[l], mem, disk, bytes[l]);
    }
  }

  class Swapper {
    var mem: seq<PageData>
    var disk: seq<Block>
    var slots: seq<Slot>
    var pte: map<Key, Entry>
    /** The frames that kalloc may give out. */
    var spare: set<nat>
    /** What each page holds, wherever it is. */
    ghost var bytes: map<Key, PageData>

    ghost predicate Valid()
      reads this
    {
      AllInv(pte, slots, mem, disk, spare, bytes)
    }

    /** swapinit. */
    constructor (mem: seq<PageData>, disk: seq<Block>, spare: set<nat>)
      requires |disk| >= LOGSTART && forall f :: f in spare ==> f < |mem|
      ensures Valid() && pte == map[] && this.disk == disk && this.mem == mem && this.spare == spare
    {
      this.mem, this.disk, this.spare := mem, disk, spare;
      slots := seq(NSWAP, _ => Slot(true, []));
      pte, bytes := map[], map[];
    }

    /** A page comes into being in a spare frame. */
    method Give(k: Key, f: nat, data: PageData)
      requires Valid() && k !in pte && f in spare
      modifies this`mem, this`pte, this`spare, this`bytes
      ensures Valid() && pte == old(pte)[k := Present(f)] && bytes == old(bytes)[k := data] && spare == old(spare) - {f}
    {
      ghost var p, m, y := pte, mem, bytes;
      mem := mem[f := data];
      pte, bytes, spare := pte[k := Present(f)], bytes[k := data], spare - {f};
      forall l | l in pte ensures BytesAt(pte[l], mem, disk, bytes[l]) {
        assert l != k ==> BytesAt(p[l], m, disk, y[l]);
      }
    }

    /** find_slot: the first free slot takes the holder. None when the source panics. */
    method FindSlot(dir: nat) returns (found: bool, s: nat)
      requires |slots| == NSWAP
      modifies this`slots
      ensures found ==> s < NSWAP && old(slots)[s].isFree && slots == old(slots)[s := Slot(false, [dir])]
      ensures found ==> forall t :: 0 <= t < s ==> !slots[t].isFree
      ensures !found ==> slots == old(slots) && forall t :: 0 <= t < NSWAP ==> !slots[t].isFree
    {
      s := 0;
      while s < NSWAP
        invariant s <= NSWAP && slots == old(slots)
        invariant forall t :: 0 <= t < s ==> !slots[t].isFree
      {
        if slots[s].isFree {
          slots := slots[s := Slot(false, [dir])];
          return true, s;
        }
        s := s + 1;
      }
      return false, s;
    }

    /** write_page_to_slot. */
    method WritePage(data: PageData, s: nat)
      requires s < NSWAP && |disk| >= LOGSTART
      modifies this`disk
      ensures Holds(disk, s, data) && SlotOnly(old(disk), disk, s)
    {
      var i := 0;
      while i < 8
        invariant i <= 8 && SlotOnly(old(disk), disk, s)
        invariant forall j: nat :: j < i ==> Eighth(disk, s, data, j)
      {
        ghost var d := disk;
        disk := disk[SlotBlock(s, i) := data[BLOCK * i..BLOCK * (i + 1)]];
        forall j: nat | j <= i ensures Eighth(disk, s, data, j) {
          assert j < i ==> Eighth(d, s, data, j);
        }
        i := i + 1;
      }
    }

    /** The page of swap_in's new frame: the slot's blocks, one after the other. */
    method ReadPage(f: nat, s: nat, ghost data: PageData)
      requires f < |mem| && Holds(disk, s, data)
      modifies this`mem
      ensures mem == old(mem)[f := data]
    {
      var i := 0;
      while i < 8
        invariant i <= 8 && |mem| == |old(mem)| && mem == old(mem)[f := mem[f]]
        invariant forall j: nat :: j < i ==> mem[f][BLOCK * j..BLOCK * (j + 1)] == data[BLOCK * j..BLOCK * (j + 1)]
      {
        assert Eighth(disk, s, data, i);
        ghost var was := mem[f];
        var block: seq<int> := disk[SlotBlock(s, i)];
        mem := mem[f := mem[f][..BLOCK * i] + block + mem[f][BLOCK * (i + 1)..]];
        forall j: nat | j <= i ensures mem[f][BLOCK * j..BLOCK * (j + 1)] == data[BLOCK * j..BLOCK * (j + 1)] {
          SameEighth(was, mem[f], block, i, j);
        }
        i := i + 1;
      }
      EighthsAre(mem[f], data);
    }

    /** swap_out of a page of the caller's choice: its bytes go to a slot and its frame is
        free to use. Nothing outside the swap blocks is written. */
    method Evict(k: Key) returns (found: bool, f: nat)
      requires Valid() && k in pte && pte[k].Present?
      modifies this`slots, this`pte, this`disk, this`spare
      ensures Valid() && mem == old(mem)
      ensures found ==>
                && f == old(pte)[k].frame && spare == old(spare) + {f}
                && k in pte && pte[k].Swapped? && pte == old(pte)[k := pte[k]]
                && pte[k].slot < |old(slots)| && old(slots)[pte[k].slot].isFree
                && slots == old(slots)[pte[k].slot := Slot(false, [k.dir])]
      ensures SwapOnly(old(disk), disk)
      ensures !found ==> pte == old(pte) && disk == old(disk) && spare == old(spare)
      ensures !found ==> forall s :: 0 <= s < |slots| ==> !slots[s].isFree
    {
      f := pte[k].frame;
      ghost var p, d, t := pte, disk, slots;
      assert BytesAt(p[k], mem, disk, bytes[k]);
      var s;
      found, s := FindSlot(k.dir);
      if !found { return; }
      pte := pte[k := Swapped(s)];
      WritePage(mem[f], s);
      EvictKeeps(p, t, mem, d, spare, bytes, k, s, disk);
      hide AllInv;
      spare := spare + {f};
    }

    /** swap_in of a page that was evicted, into frame f: the page has the bytes it had. */
    method FaultIn(k: Key, f: nat)
      requires Valid() && k in pte && pte[k].Swapped? && f in spare
      modifies this`slots, this`pte, this`mem, this`spare
      ensures Valid() && pte == old(pte)[k := Present(f)] && spare == old(spare) - {f}
      ensures mem == old(mem)[f := bytes[k]] && k in bytes
      ensures old(pte)[k].slot < |slots| && slots == old(slots)[old(pte)[k].slot := Slot(true, [])]
    {
      FaultKeeps(pte, slots, mem, disk, spare, bytes, k, f);
      hide AllInv, Holds;
      var s := pte[k].slot;
      ghost var p := pte;
      ReadPage(f, s, bytes[k]);
      var i := 0;
      while i < |slots[s].holders|
        invariant 0 <= i <= 1 && slots == old(slots) && spare == old(spare) && mem == old(mem)[f := bytes[k]]
        invariant pte == if i == 0 then p else p[k := Present(f)]
      {
        pte := pte[Key(slots[s].holders[i], k.page) := Present(f)];
        i := i + 1;
      }
      slots := slots[s := Slot(true, [])];
      spare := spare - {f};
    }

    /** The owner writes a byte of a page that is present. */
    method Store(k: Key, off: nat, b: int)
      requires Valid() && k in pte && pte[k].Present? && off < PGSIZE
      modifies this`mem, this`bytes
      ensures Valid() && k in old(bytes) && bytes == old(bytes)[k := old(bytes)[k][off := b]]
    {
      var f := pte[k].frame;
      ghost var m, y := mem, bytes;
      assert BytesAt(pte[k], mem, disk, bytes[k]);
      mem := mem[f := mem[f][off := b]];
      bytes := bytes[k := bytes[k][off := b]];
      forall l | l in pte ensures BytesAt(pte[l], mem, disk, bytes[l]) {
        assert BytesAt(pte[l], m, disk, y[l]);
      }
    }

    method Load(k: Key, off: nat) returns (b: int)
      requires Valid() && k in pte && pte[k].Present? && off < PGSIZE
      ensures k in bytes && b == bytes[k][off]
    {
      assert BytesAt(pte[k], mem, disk, bytes[k]);
      b := mem[pte[k].frame][off];
    }

    /** Any evictions and faults, in any order, of any pages into any spare frames, as far
        as there are slots: no page's bytes change. */
    method Churn(moves: seq<Move>) returns (done: nat)
      requires Valid()
      modifies this`slots, this`pte, this`mem, this`disk, this`spare
      ensures Valid() && bytes == old(bytes) && done <= |moves| && pte.Keys == old(pte.Keys)
              && SwapOnly(old(disk), disk)
      ensures forall k :: k in pte ==> (pte[k].Present? <==> InAfter(moves[..done], k, old(pte)[k].Present?))
      ensures done < |moves| ==> CannotMove(moves[done], pte, slots, spare)
    {
      hide AllInv, SwapOnly;
      done := 0;
      SwapOnlyTwice(disk, disk, disk);
      while done < |moves|
        invariant done <= |moves| && Valid() && pte.Keys == old(pte.Keys) && SwapOnly(old(disk), disk)
        invariant forall k :: k in pte ==> (pte[k].Present? <==> InAfter(moves[..done], k, old(pte)[k].Present?))
      {
        assert moves[..done + 1][..done] == moves[..done];
        ghost var d := disk;
        match moves[done] {
          case Out(k) =>
            if k !in pte || !pte[k].Present? { return; }
            var found, f := Evict(k);
            SwapOnlyTwice(old(disk), d, disk);
            if !found { return; }
          case In(k, f) =>
            if k !in pte || !pte[k].Swapped? || f !in spare { return; }
            FaultIn(k, f);
        }
        done := done + 1;
      }
    }
  }

  datatype Move = Out(k: Key) | In(k: Key, f: nat)

  /** Where a page is after these moves: where its last one has put it. */
  ghost predicate InAfter(moves: seq<Move>, k: Key, was: bool) {
    if moves == [] then was
    else
      var last := moves[|moves| - 1];
      if last.k == k then last.In? else InAfter(moves[..|moves| - 1], k, was)
  }

  /** The page is not where the move takes it from, or there is no place for it. */
  ghost predicate CannotMove(m: Move, pte: map<Key, Entry>, slots: seq<Slot>, spare: set<nat>) {
    match m
    case Out(k) => k !in pte || !pte[k].Present? || forall s :: 0 <= s < |slots| ==> !slots[s].isFree
    case In(k, f) => k !in pte || !pte[k].Swapped? || f !in spare
  }

  lemma SwapOnlyTwice(a: seq<Block>, b: seq<Block>, c: seq<Block>)
    ensures SwapOnly(a, b) && SwapOnly(b, c) ==> SwapOnly(a, c)
    ensures SwapOnly(a, a)
  {
  }

  lemma SameEighth(was: PageData, now: PageData, block: seq<int>, i: nat, j: nat)
    requires j <= i < 8 && |block| == BLOCK && now == was[..BLOCK * i] + block + was[BLOCK * (i + 1)..]
    ensures now[BLOCK * j..BLOCK * (j + 1)] == if j == i then block else was[BLOCK * j..BLOCK * (j + 1)]
  {
  }
}
