/**
 Where all the frames are (kalloc.c): how many are free, and how many each use can have
 taken. Sharing can only make the pages fewer than what the processes see.
*/
module VmCount {
  import opened Common
  import opened VmModel

  ghost function FreeFrames(mem: seq<Content>): set<nat> {
    set f: nat | f < |mem| && mem[f].Free?
  }

  ghost function KernelFrames(mem: seq<Content>): set<nat> {
    set f: nat | f < |mem| && mem[f].Kernel?
  }

  ghost function PageFrames(mem: seq<Content>): set<nat> {
    set f: nat | f < |mem| && mem[f].Page?
  }

  ghost function TableFrames(mem: seq<Content>): set<nat> {
    set f: nat | f < |mem| && mem[f].Table?
  }

  ghost function DirFrames(mem: seq<Content>): set<nat> {
    set f: nat | f < |mem| && mem[f].Dir?
  }

  /** The pages that are mapped, each as often as some directory maps it. */
  ghost function Mappings<T>(abs: map<nat, map<nat, T>>): set<(nat, nat)> {
    set d, v | d in abs && v in abs[d] :: (d, v)
  }

  // ---------- the count ----------

  /** Every frame is counted once. */
  lemma FramesAddUp(mem: seq<Content>)
    requires forall f :: 0 <= f < |mem| ==> !mem[f].Raw?
    ensures |mem| == |FreeFrames(mem)| + |KernelFrames(mem)| + |PageFrames(mem)| + |TableFrames(mem)| + |DirFrames(mem)|
  {
    RangeSize(0, |mem|);
    EveryFrame(mem);
    hide *;
    var a, b, c, d := FreeFrames(mem), KernelFrames(mem), PageFrames(mem), TableFrames(mem);
    assert |a + b| == |a| + |b|;
    assert |a + b + c| == |a + b| + |c|;
    assert |a + b + c + d| == |a + b + c| + |d|;
  }

  lemma EveryFrame(mem: seq<Content>)
    requires forall f :: 0 <= f < |mem| ==> !mem[f].Raw?
    ensures var a, b, c, d, e := FreeFrames(mem), KernelFrames(mem), PageFrames(mem), TableFrames(mem), DirFrames(mem);
            && a + b + c + d + e == Range(0, |mem|)
            && a !! b && (a + b) !! c && (a + b + c) !! d && (a + b + c + d) !! e
  {
    RangeIs(0, |mem|);
  }

  /** The uses under the invariant, when nothing is loose. */
  lemma FramesCounted(m: Machine)
    requires Inv(m, {})
    ensures |m.mem| == |m.free| + |KernelFrames(m.mem)| + |PageFrames(m.mem)| + |m.owner| + |m.space|
  {
    FramesAddUp(m.mem);
    FreeCounted(m);
    TablesCounted(m);
    DirsCounted(m);
  }

  lemma FreeCounted(m: Machine)
    requires FreeInv(m.mem, m.free)
    ensures |FreeFrames(m.mem)| == |m.free|
  {
    DistinctSize(m.free);
    assert FreeFrames(m.mem) == Elements(m.free);
  }

  lemma TablesCounted(m: Machine)
    requires Inv(m, {})
    ensures TableFrames(m.mem) == m.owner.Keys
  {
    forall t | t in m.owner ensures t < |m.mem| && m.mem[t].Table? {
      assert HasTable(m.mem, m.owner[t].0, m.owner[t].1);
    }
  }

  lemma DirsCounted(m: Machine)
    requires Inv(m, {})
    ensures DirFrames(m.mem) == m.space.Keys
  {
  }

  /** Tables hang from different slots. */
  lemma TablesAtMost(m: Machine)
    requires Inv(m, {})
    ensures |m.owner| <= |m.space| * NPTENTRIES
  {
    hide Inv;
    forall t, u | t in m.owner && u in m.owner
      ensures m.owner[t].0 in m.space.Keys && m.owner[t].1 < NPTENTRIES && (m.owner[t] == m.owner[u] ==> t == u)
    {
      OwnerSlot(m, t);
      OwnerSlot(m, u);
    }
    PlacedCount(m.owner, m.space.Keys, NPTENTRIES);
  }

  lemma OwnerSlot(m: Machine, t: nat)
    requires Inv(m, {}) && t in m.owner
    ensures m.owner[t].0 in m.space && m.owner[t].1 < NPTENTRIES
    ensures HasTable(m.mem, m.owner[t].0, m.owner[t].1) && TableOf(m.mem, m.owner[t].0, m.owner[t].1) == t
  {
  }

  /** Each frame with a page is mapped somewhere, so there are no more than mappings. */
  lemma PagesAtMost(m: Machine)
    requires Inv(m, {})
    ensures |PageFrames(m.mem)| <= |Mappings(Abs(m))|
  {
    var at := map f | f in PageFrames(m.mem) ::
      if |m.rm| == |m.mem| && m.rm[f] != [] && f in m.at then (m.rm[f][0], m.at[f]) else (0, 0);
    forall f | f in PageFrames(m.mem) ensures at[f] in Mappings(Abs(m)) && at[f].0 in m.space
      && at[f].1 in m.space[at[f].0] && m.space[at[f].0][at[f].1].frame == f
    {
      HeldSomewhere(m, f);
    }
    OneToOneSize(PageFrames(m.mem), at, Mappings(Abs(m)));
  }

  lemma HeldSomewhere(m: Machine, f: nat)
    requires Inv(m, {}) && f in PageFrames(m.mem)
    ensures |m.rm| == |m.mem| && m.rm[f] != [] && f in m.at
    ensures var d, v := m.rm[f][0], m.at[f];
            d in m.space && v in m.space[d] && m.space[d][v].frame == f && (d, v) in Mappings(Abs(m))
  {
    assert m.rm[f][0] in m.rm[f] && HeldBy(m.at, m.space, f, m.rm[f][0]);
    assert m.at[f] in PagesOf(m, m.rm[f][0]);
  }

  // ---------- what the kernel keeps ----------

  predicate Keeps(mem: seq<Content>, f: nat, use: Use) {
    f < |mem| && mem[f] == Kernel(use)
  }

  ghost function BootFrames(mem: seq<Content>): set<nat> {
    set f: nat | f < |mem| && mem[f] == Kernel(Boot)
  }

  ghost function StackFrames(mem: seq<Content>): set<nat> {
    set f: nat | f < |mem| && mem[f].Kernel? && mem[f].use.Stack?
  }

  ghost function PipeFrames(mem: seq<Content>): set<nat> {
    set f: nat | f < |mem| && mem[f].Kernel? && mem[f].use.PipePage?
  }

  /** The kernel has its image, one stack for each process and one page for each pipe, and
      no other frame. */
  ghost predicate KeptRight(mem: seq<Content>, stacks: map<nat, nat>, pipes: map<nat, nat>, kernel: nat) {
    && (forall p :: p in stacks ==> Keeps(mem, stacks[p], Stack(p)))
    && (forall i :: i in pipes ==> Keeps(mem, pipes[i], PipePage(i)))
    && (forall f :: f in StackFrames(mem) ==> mem[f].use.pid in stacks && stacks[mem[f].use.pid] == f)
    && (forall f :: f in PipeFrames(mem) ==> mem[f].use.id in pipes && pipes[mem[f].use.id] == f)
    && |BootFrames(mem)| == kernel
  }

  lemma KeptStill(a: seq<Content>, b: seq<Content>, stacks: map<nat, nat>, pipes: map<nat, nat>, kernel: nat)
    requires KeptRight(a, stacks, pipes, kernel) && |b| == |a|
    requires forall f :: 0 <= f < |a| && (a[f].Kernel? || b[f].Kernel?) ==> b[f] == a[f]
    ensures KeptRight(b, stacks, pipes, kernel)
  {
    assert BootFrames(b) == BootFrames(a);
    assert forall f :: f in StackFrames(b) ==> f in StackFrames(a);
    assert forall f :: f in PipeFrames(b) ==> f in PipeFrames(a);
  }

  lemma StackTaken(mem: seq<Content>, stacks: map<nat, nat>, pipes: map<nat, nat>, kernel: nat, f: nat, p: nat)
    requires KeptRight(mem, stacks, pipes, kernel) && f < |mem| && mem[f].Free? && p !in stacks
    ensures KeptRight(mem[f := Kernel(Stack(p))], stacks[p := f], pipes, kernel)
  {
    var mem' := mem[f := Kernel(Stack(p))];
    assert BootFrames(mem') == BootFrames(mem);
    assert StackFrames(mem') == StackFrames(mem) + {f};
    assert PipeFrames(mem') == PipeFrames(mem);
  }

  lemma StackGiven(mem: seq<Content>, stacks: map<nat, nat>, pipes: map<nat, nat>, kernel: nat, p: nat)
    requires KeptRight(mem, stacks, pipes, kernel) && p in stacks
    ensures Keeps(mem, stacks[p], Stack(p))
    ensures KeptRight(mem[stacks[p] := Free], stacks - {p}, pipes, kernel)
  {
    var mem' := mem[stacks[p] := Free];
    assert Keeps(mem, stacks[p], Stack(p));
    assert BootFrames(mem') == BootFrames(mem);
    assert StackFrames(mem') == StackFrames(mem) - {stacks[p]};
    assert PipeFrames(mem') == PipeFrames(mem);
  }

  lemma PipeTaken(mem: seq<Content>, stacks: map<nat, nat>, pipes: map<nat, nat>, kernel: nat, f: nat, i: nat)
    requires KeptRight(mem, stacks, pipes, kernel) && f < |mem| && mem[f].Free? && i !in pipes
    ensures KeptRight(mem[f := Kernel(PipePage(i))], stacks, pipes[i := f], kernel)
  {
    var mem' := mem[f := Kernel(PipePage(i))];
    assert BootFrames(mem') == BootFrames(mem);
    assert StackFrames(mem') == StackFrames(mem);
    assert PipeFrames(mem') == PipeFrames(mem) + {f};
  }

  lemma PipeGiven(mem: seq<Content>, stacks: map<nat, nat>, pipes: map<nat, nat>, kernel: nat, i: nat)
    requires KeptRight(mem, stacks, pipes, kernel) && i in pipes
    ensures Keeps(mem, pipes[i], PipePage(i))
    ensures KeptRight(mem[pipes[i] := Free], stacks, pipes - {i}, kernel)
  {
    var mem' := mem[pipes[i] := Free];
    assert Keeps(mem, pipes[i], PipePage(i));
    assert BootFrames(mem') == BootFrames(mem);
    assert StackFrames(mem') == StackFrames(mem);
    assert PipeFrames(mem') == PipeFrames(mem) - {pipes[i]};
  }

  lemma KernelUses(mem: seq<Content>)
    ensures |KernelFrames(mem)| == |BootFrames(mem)| + |StackFrames(mem)| + |PipeFrames(mem)|
  {
    assert KernelFrames(mem) == BootFrames(mem) + StackFrames(mem) + PipeFrames(mem);
    assert BootFrames(mem) !! StackFrames(mem) && (BootFrames(mem) + StackFrames(mem)) !! PipeFrames(mem);
    assert |BootFrames(mem) + StackFrames(mem)| == |BootFrames(mem)| + |StackFrames(mem)|;
  }

  lemma StacksCounted(mem: seq<Content>, stacks: map<nat, nat>, pipes: map<nat, nat>, kernel: nat)
    requires KeptRight(mem, stacks, pipes, kernel)
    ensures |StackFrames(mem)| == |stacks|
  {
    assert forall p :: p in stacks ==> Keeps(mem, stacks[p], Stack(p));
    OneToOneSize(stacks.Keys, stacks, StackFrames(mem));
    OneToOneSize(StackFrames(mem), map f | f in StackFrames(mem) :: mem[f].use.pid, stacks.Keys);
  }

  lemma PipesCounted(mem: seq<Content>, stacks: map<nat, nat>, pipes: map<nat, nat>, kernel: nat)
    requires KeptRight(mem, stacks, pipes, kernel)
    ensures |PipeFrames(mem)| == |pipes|
  {
    assert forall i :: i in pipes ==> Keeps(mem, pipes[i], PipePage(i));
    OneToOneSize(pipes.Keys, pipes, PipeFrames(mem));
    OneToOneSize(PipeFrames(mem), map f | f in PipeFrames(mem) :: mem[f].use.id, pipes.Keys);
  }

  lemma KernelCounted(mem: seq<Content>, stacks: map<nat, nat>, pipes: map<nat, nat>, kernel: nat)
    requires KeptRight(mem, stacks, pipes, kernel)
    ensures |KernelFrames(mem)| == kernel + |stacks| + |pipes|
  {
    hide KernelFrames, BootFrames, StackFrames, PipeFrames, Keeps;
    KernelUses(mem);
    StacksCounted(mem, stacks, pipes, kernel);
    PipesCounted(mem, stacks, pipes, kernel);
  }
}
