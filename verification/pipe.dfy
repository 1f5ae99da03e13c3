/**
 Pipes (pipe.c): a ring of PIPESIZE bytes between 32-bit counters that wrap around. Each
 method is what a reader or writer does between taking the pipe's lock, or waking up with
 it, and dropping it or going to sleep.
*/
module Pipe {
  import opened Common

  const PIPESIZE: nat := 512

  type Byte = x: int | 0 <= x < 256

  /** How a stretch of a call ends: it returns, or sleeps and will go on. */
  datatype Outcome = Returns(r: int) | Sleeps

  /** Where the byte k places after counter c is. */
  function Slot(c: nat, k: nat): (i: nat)
    ensures i < PIPESIZE
  {
    (c + k) % PIPESIZE
  }

  /** It is there whether or not the counter has wrapped around in between. */
  lemma SlotAfterWrap(c: nat, k: nat)
    ensures Add32(c, k) % PIPESIZE == Slot(c, k)
  {
    assert (c + k) % WRAP == c + k - (c + k) / WRAP * WRAP;
    assert WRAP == 8388608 * PIPESIZE;
  }

  lemma SlotNext(c: nat, k: nat)
    ensures Slot(Add32(c, 1), k) == Slot(c, 1 + k)
  {
    SlotAfterWrap(c, 1);
  }

  /** Different places in the ring, for fewer than PIPESIZE bytes, are different slots. */
  lemma SlotsApart(c: nat, i: nat, j: nat)
    requires i < j < PIPESIZE
    ensures Slot(c, i) != Slot(c, j)
  {
  }

  /** The ring has content from counter c on. */
  ghost predicate RingHas(data: seq<Byte>, c: nat, content: seq<Byte>) {
    |data| == PIPESIZE && forall k :: 0 <= k < |content| ==> data[Slot(c, k)] == content[k]
  }

  lemma RingPut(data: seq<Byte>, c: nat, content: seq<Byte>, x: Byte)
    requires RingHas(data, c, content) && |content| < PIPESIZE
    ensures RingHas(data[Slot(c, |content|) := x], c, content + [x])
  {
    forall k | 0 <= k < |content| ensures data[Slot(c, |content|) := x][Slot(c, k)] == content[k] {
      SlotsApart(c, k, |content|);
    }
  }

  lemma RingTake(data: seq<Byte>, c: nat, content: seq<Byte>)
    requires RingHas(data, c, content) && content != []
    ensures data[Slot(c, 0)] == content[0] && RingHas(data, Add32(c, 1), content[1..])
  {
    forall k | 0 <= k < |content[1..]| ensures data[Slot(Add32(c, 1), k)] == content[1..][k] {
      SlotNext(c, k);
    }
  }

  lemma AddAgain(c: nat, n: nat, k: nat)
    ensures Add32(Add32(c, n), k) == Add32(c, n + k)
    ensures Add32(c, n) < WRAP && Add32(c, n + k) < WRAP
  {
    var q := (c + n) / WRAP;
    assert c + n == WRAP * q + Add32(c, n);
    var t := (Add32(c, n) + k) / WRAP;
    assert c + (n + k) == WRAP * (q + t) + Add32(Add32(c, n), k);
  }

  lemma CounterNext(c: nat, n: nat)
    ensures Add32(Add32(c, n), 1) == Add32(c, n + 1)
    ensures n > 0 ==> Add32(Add32(c, 1), n - 1) == Add32(c, n)
    ensures Add32(c, n) < WRAP && Add32(c, n + 1) < WRAP
  {
    hide Add32;
    AddAgain(c, n, 1);
    if n > 0 { AddAgain(c, 1, n - 1); }
  }

  lemma CounterGap(c: nat, n: nat)
    requires c < WRAP && n <= PIPESIZE
    ensures Add32(c, n) == Add32(c, PIPESIZE) <==> n == PIPESIZE
    ensures c == Add32(c, n) <==> n == 0
  {
  }

  /** addr[i..next] */
  function Piece(addr: seq<Byte>, i: nat, next: nat): (r: seq<Byte>)
    requires i <= next <= |addr|
    ensures |r| == next - i
  {
    addr[i..next]
  }

  class Pipe {
    const data: array<Byte>
    var nread: nat
    var nwrite: nat
    var readopen: bool
    var writeopen: bool
    /** All the bytes that writers have put in, and all that readers have taken out. */
    ghost var accepted: seq<Byte>
    ghost var delivered: seq<Byte>

    /** What is in flight is in the ring, in order, from nread to nwrite. */
    ghost predicate Valid()
      reads this, data
    {
      && data.Length == PIPESIZE && nread < WRAP && nwrite < WRAP
      && |delivered| <= |accepted| <= |delivered| + PIPESIZE
      && accepted[..|delivered|] == delivered
      && nwrite == Add32(nread, |accepted| - |delivered|)
      && RingHas(data[..], nread, accepted[|delivered|..])
    }

    constructor ()
      ensures Valid() && accepted == [] && delivered == [] && readopen && writeopen && fresh(data)
    {
      data := new Byte[PIPESIZE](_ => 0);
      nread, nwrite, readopen, writeopen := 0, 0, true, true;
      accepted, delivered := [], [];
    }

    lemma Full()
      requires Valid()
      ensures nwrite == Add32(nread, PIPESIZE) <==> |accepted| - |delivered| == PIPESIZE
      ensures nread == nwrite <==> |accepted| == |delivered|
    {
      CounterGap(nread, |accepted| - |delivered|);
    }

    /** p->data[p->nwrite++ % PIPESIZE] = x. */
    method Put(x: Byte)
      requires Valid() && |accepted| - |delivered| < PIPESIZE
      modifies data, this`nwrite, this`accepted
      ensures Valid() && accepted == old(accepted) + [x]
    {
      hide Slot, Add32, RingHas;
      ghost var n, content, d := |accepted| - |delivered|, accepted[|delivered|..], data[..];
      SlotAfterWrap(nread, n);
      RingPut(d, nread, content, x);
      CounterNext(nread, n);
      data[nwrite % PIPESIZE] := x;
      nwrite := Add32(nwrite, 1);
      accepted := accepted + [x];
      assert accepted[..|delivered|] == delivered && accepted[|delivered|..] == content + [x];
      assert data[..] == d[Slot(nread, n) := x];
    }

    /** addr[i] = p->data[p->nread++ % PIPESIZE]. */
    method Take() returns (x: Byte)
      requires Valid() && |accepted| > |delivered|
      modifies this`nread, this`delivered
      ensures Valid() && x == accepted[|old(delivered)|] && delivered == old(delivered) + [x]
    {
      ghost var n, content := |accepted| - |delivered|, accepted[|delivered|..];
      RingTake(data[..], nread, content);
      CounterNext(nread, n);
      CounterNext(nread, 1);
      assert Slot(nread, 0) == nread % PIPESIZE;
      hide Slot, Add32, RingHas;
      x := data[nread % PIPESIZE];
      nread := Add32(nread, 1);
      delivered := delivered + [x];
      assert accepted[|delivered|..] == content[1..];
    }

    /** pipewrite from byte i of addr until it is done, fails, or must sleep, at byte
        next. Whatever it does, it has put in addr[i..next]. woke: it has woken the readers,
        which it does unless it fails. */
    method WriteOn(addr: seq<Byte>, i: nat, killed: bool) returns (next: nat, r: Outcome, woke: bool)
      requires Valid() && i <= |addr|
      modifies data, this`nwrite, this`accepted
      ensures Valid() && i <= next <= |addr| && accepted == old(accepted) + Piece(addr, i, next)
      ensures accepted == old(accepted) + addr[i..next]
      ensures r == if next == |addr| then Returns(|addr|) else if !readopen || killed then Returns(-1) else Sleeps
      ensures next < |addr| ==> |accepted| - |delivered| == 512
      ensures woke <==> r != Returns(-1)
    {
      next := i;
      while next < |addr|
        invariant Valid() && i <= next <= |addr| && accepted == old(accepted) + Piece(addr, i, next)
      {
        Full();
        if nwrite == Add32(nread, PIPESIZE) {
          if !readopen || killed { return next, Returns(-1), false; }
          return next, Sleeps, true;
        }
        Put(addr[next]);
        next := next + 1;
      }
      return next, Returns(|addr|), true;
    }

    /** piperead of n bytes until it returns or must sleep. What it takes out is what was
        put in next. woke: it has woken the writers, which it does when it has read. */
    method ReadOn(n: nat, killed: bool) returns (got: seq<Byte>, r: Outcome, woke: bool)
      requires Valid()
      modifies this`nread, this`delivered
      ensures Valid() && delivered == old(delivered) + got
      ensures if |accepted| == |old(delivered)| && writeopen
              then got == [] && !woke && r == if killed then Returns(-1) else Sleeps
              else r == Returns(|got|) && woke && |got| == Least(|accepted| - |old(delivered)|, n)
      ensures |got| <= n && (r.Returns? && r.r >= 0 && |got| < n ==> delivered == accepted)
    {
      got := [];
      Full();
      if nread == nwrite && writeopen {
        return got, if killed then Returns(-1) else Sleeps, false;
      }
      var i := 0;
      while i < n
        invariant Valid() && |got| == i <= n && delivered == old(delivered) + got
      {
        Full();
        if nread == nwrite { break; }
        var x := Take();
        got := got + [x];
        i := i + 1;
      }
      Full();
      r, woke := Returns(i), true;
    }

    /** pipeclose. gone says that the pipe is freed. */
    method Close(writable: bool) returns (gone: bool)
      requires Valid()
      modifies this`readopen, this`writeopen
      ensures Valid() && gone == (!readopen && !writeopen)
      ensures if writable then !writeopen && readopen == old(readopen) else !readopen && writeopen == old(writeopen)
    {
      hide RingHas, Add32;
      if writable { writeopen := false; } else { readopen := false; }
      gone := !readopen && !writeopen;
    }
  }

  // ---------- any number of readers and writers ----------

  /** A call that has not ended is asleep, or has been woken and is to go on. */
  datatype Status = Asleep | Ready | Ended(r: int)

  /** A call by process p, and how far it is. */
  datatype Call =
    | WriteCall(p: nat, addr: seq<Byte>, next: nat, st: Status)
    | ReadCall(p: nat, n: nat, got: seq<Byte>, st: Status)

  function Waken(c: Call, writers: bool): Call {
    if c.WriteCall? == writers && c.st.Asleep? then c.(st := Ready) else c
  }

  function Woken(calls: seq<Call>, writers: bool): (r: seq<Call>)
    ensures |r| == |calls| && forall c :: 0 <= c < |calls| ==> r[c] == Waken(calls[c], writers)
  {
    seq(|calls|, c requires 0 <= c < |calls| => Waken(calls[c], writers))
  }

  /** The bytes of data that call c put in; from says for each byte which call did. */
  function Pick(data: seq<Byte>, from: seq<nat>, c: nat): seq<Byte>
    requires |from| == |data|
  {
    if data == [] then []
    else
      var k := |data| - 1;
      Pick(data[..k], from[..k], c) + if from[k] == c then [data[k]] else []
  }

  function Repeat(c: nat, n: nat): (r: seq<nat>)
    ensures |r| == n && forall k :: 0 <= k < n ==> r[k] == c
  {
    seq(n, _ => c)
  }

  lemma {:induction false} PickMore(data: seq<Byte>, from: seq<nat>, more: seq<Byte>, d: nat, c: nat)
    requires |from| == |data|
    ensures Pick(data + more, from + Repeat(d, |more|), c) == Pick(data, from, c) + if d == c then more else []
    decreases |more|
  {
    if more == [] {
      assert data + more == data && from + Repeat(d, 0) == from;
    } else {
      var k := |more| - 1;
      PickMore(data, from, more[..k], d, c);
      assert (data + more)[..|data| + k] == data + more[..k];
      assert (from + Repeat(d, k + 1))[..|data| + k] == from + Repeat(d, k);
      assert more == more[..k] + [more[k]];
    }
  }

  /** The bytes that these calls returned, one after the other. */
  function Gots(calls: seq<Call>, returned: seq<nat>): seq<Byte> {
    if returned == [] then []
    else
      var c := returned[|returned| - 1];
      Gots(calls, returned[..|returned| - 1]) + if c < |calls| && calls[c].ReadCall? then calls[c].got else []
  }

  lemma {:induction false} GotsSame(calls: seq<Call>, calls': seq<Call>, returned: seq<nat>)
    requires |calls| <= |calls'| && forall c :: c in returned ==> c < |calls| && calls'[c] == calls[c]
    ensures Gots(calls', returned) == Gots(calls, returned)
  {
    if returned != [] {
      GotsSame(calls, calls', returned[..|returned| - 1]);
    }
  }

  /** Just the calls that have not ended are pending, one at most for each process. */
  ghost predicate CallsInv(calls: seq<Call>, pending: map<nat, nat>) {
    && (forall p :: p in pending ==> pending[p] < |calls| && calls[pending[p]].p == p && !calls[pending[p]].st.Ended?)
    && (forall c :: 0 <= c < |calls| && !calls[c].st.Ended? ==> calls[c].p in pending && pending[calls[c].p] == c)
  }

  /** Each write has put in its bytes in order, as many as it has come to; all of them, if it
      returned without failing. */
  ghost predicate WritesInv(calls: seq<Call>, accepted: seq<Byte>, from: seq<nat>) {
    && |from| == |accepted|
    && (forall k :: 0 <= k < |from| ==> from[k] < |calls| && calls[from[k]].WriteCall?)
    && (forall c: nat :: c < |calls| && calls[c].WriteCall? ==> WriteOk(calls[c], Pick(accepted, from, c)))
  }

  ghost predicate WriteOk(w: Call, put: seq<Byte>)
    requires w.WriteCall?
  {
    && w.next <= |w.addr| && put == w.addr[..w.next]
    && (w.st.Ended? ==> w.st.r == if w.next == |w.addr| then |w.addr| else -1)
  }

  /** The reads that have ended returned what came out, in the order in which they ended. */
  ghost predicate ReadsInv(calls: seq<Call>, returned: seq<nat>, delivered: seq<Byte>) {
    && Distinct(returned) && delivered == Gots(calls, returned)
    && (forall c :: c in returned ==> c < |calls|)
    && (forall c: nat :: c < |calls| && calls[c].ReadCall? ==> (c in returned <==> calls[c].st.Ended?))
    && (forall c: nat :: c < |calls| && c in returned ==> calls[c].ReadCall? && ReadOk(calls[c]))
    && (forall c: nat :: c < |calls| && calls[c].ReadCall? && !calls[c].st.Ended? ==> calls[c].got == [])
  }

  ghost predicate ReadOk(c: Call)
    requires c.ReadCall? && c.st.Ended?
  {
    |c.got| <= c.n && (c.st.r == |c.got| || (c.st.r == -1 && c.got == []))
  }

  /** No writer sleeps while there is room, and no reader while there are bytes, nor either
      when the other end is closed or the process killed. stranded: a write has put bytes in
      and failed, and nobody has woken the readers since. */
  ghost predicate SleepInv(calls: seq<Call>, killed: set<nat>, n: int, readopen: bool, writeopen: bool,
                           stranded: bool) {
    && (forall c :: 0 <= c < |calls| && calls[c].st.Asleep? ==> calls[c].p !in killed)
    && (forall c :: 0 <= c < |calls| && calls[c].st.Asleep? && calls[c].WriteCall? ==>
          n == PIPESIZE && readopen && !stranded)
    && (forall c :: 0 <= c < |calls| && calls[c].st.Asleep? && calls[c].ReadCall? ==> (n == 0 || stranded) && writeopen)
  }

  // ---------- what a stretch of a call changes ----------

  lemma WriteOkAfter(w: Call, put: seq<Byte>, next: nat, st: Status)
    requires w.WriteCall? && WriteOk(w, put) && w.next <= next <= |w.addr|
    requires st.Ended? ==> st.r == if next == |w.addr| then |w.addr| else -1
    ensures WriteOk(w.(next := next, st := st), put + Piece(w.addr, w.next, next))
  {
    assert w.addr[..w.next] + w.addr[w.next..next] == w.addr[..next];
  }

  lemma WritesAfter(calls: seq<Call>, accepted: seq<Byte>, from: seq<nat>, c: nat, next: nat, st: Status)
    requires WritesInv(calls, accepted, from) && c < |calls| && calls[c].WriteCall?
    requires calls[c].next <= next <= |calls[c].addr|
    requires st.Ended? ==> st.r == if next == |calls[c].addr| then |calls[c].addr| else -1
    ensures var more := Piece(calls[c].addr, calls[c].next, next);
            WritesInv(calls[c := calls[c].(next := next, st := st)], accepted + more, from + Repeat(c, |more|))
  {
    hide Pick, Piece, WriteOk, Repeat;
    var w, more := calls[c], Piece(calls[c].addr, calls[c].next, next);
    var calls', from' := calls[c := w.(next := next, st := st)], from + Repeat(c, |more|);
    forall d: nat | d < |calls| && calls'[d].WriteCall? ensures WriteOk(calls'[d], Pick(accepted + more, from', d)) {
      assert WriteOk(calls[d], Pick(accepted, from, d));
      PickMore(accepted, from, more, c, d);
      if d == c {
        WriteOkAfter(w, Pick(accepted, from, c), next, st);
      } else {
        assert Pick(accepted, from, d) + [] == Pick(accepted, from, d);
      }
    }
  }

  /** Waking somebody, or a read going on, changes nothing about the writes. */
  lemma WritesSame(calls: seq<Call>, calls': seq<Call>, accepted: seq<Byte>, from: seq<nat>)
    requires WritesInv(calls, accepted, from) && |calls| <= |calls'|
    requires forall c :: 0 <= c < |calls| ==>
               calls'[c].WriteCall? == calls[c].WriteCall?
                 && (calls[c].WriteCall? ==> calls'[c] == calls[c] || calls'[c] == Waken(calls[c], true))
    requires forall c :: |calls| <= c < |calls'| && calls'[c].WriteCall? ==> calls'[c].next == 0 && !calls'[c].st.Ended?
    ensures WritesInv(calls', accepted, from)
  {
    forall d: nat | d < |calls'| && calls'[d].WriteCall? ensures WriteOk(calls'[d], Pick(accepted, from, d)) {
      if d < |calls| {
        assert WriteOk(calls[d], Pick(accepted, from, d));
      } else {
        PickNone(accepted, from, d);
      }
    }
  }

  lemma {:induction false} PickNone(data: seq<Byte>, from: seq<nat>, c: nat)
    requires |from| == |data| && forall k :: 0 <= k < |from| ==> from[k] != c
    ensures Pick(data, from, c) == []
  {
    if data != [] { PickNone(data[..|data| - 1], from[..|data| - 1], c); }
  }

  /** Only calls that have not ended change, and none of them ends. */
  lemma ReadsSame(calls: seq<Call>, calls': seq<Call>, returned: seq<nat>, delivered: seq<Byte>)
    requires ReadsInv(calls, returned, delivered) && |calls| <= |calls'|
    requires forall c :: 0 <= c < |calls| ==> calls'[c].ReadCall? == calls[c].ReadCall?
    requires forall c :: 0 <= c < |calls| && calls[c].ReadCall? ==>
               calls'[c] == calls[c] || (!calls[c].st.Ended? && !calls'[c].st.Ended? && calls'[c].got == calls[c].got)
    requires forall c :: |calls| <= c < |calls'| ==>
               !calls'[c].st.Ended? && (calls'[c].ReadCall? ==> calls'[c].got == [])
    ensures ReadsInv(calls', returned, delivered)
  {
    GotsSame(calls, calls', returned);
  }

  lemma GotsMore(calls: seq<Call>, returned: seq<nat>, c: nat)
    requires c < |calls| && calls[c].ReadCall?
    ensures Gots(calls, returned + [c]) == Gots(calls, returned) + calls[c].got
  {
    assert (returned + [c])[..|returned|] == returned;
  }

  lemma DistinctMore(q: seq<nat>, c: nat)
    requires Distinct(q) && c !in q
    ensures Distinct(q + [c]) && forall x :: x in q + [c] <==> x in q || x == c
  {
  }

  lemma ReadEnds(calls: seq<Call>, returned: seq<nat>, delivered: seq<Byte>, c: nat, got: seq<Byte>, r: int)
    requires ReadsInv(calls, returned, delivered) && c < |calls| && calls[c].ReadCall? && !calls[c].st.Ended?
    requires |got| <= calls[c].n && (r == |got| || (r == -1 && got == []))
    ensures ReadsInv(calls[c := calls[c].(got := got, st := Ended(r))], returned + [c], delivered + got)
  {
    var calls' := calls[c := calls[c].(got := got, st := Ended(r))];
    assert c !in returned;
    DistinctMore(returned, c);
    hide Gots, Distinct;
    GotsSame(calls, calls', returned);
    GotsMore(calls', returned, c);
  }

  /** Write c has gone on: it is done, has failed, or sleeps, and unless it has failed the
      readers are awake. */
  ghost predicate AfterWrite(a: seq<Call>, b: seq<Call>, c: nat, readopen: bool, killed: set<nat>) {
    && c < |a| == |b| && a[c].WriteCall? && b[c].WriteCall?
    && b[c].addr == a[c].addr && b[c].p == a[c].p && a[c].next <= b[c].next <= |a[c].addr|
    && b[c].st == WriteStatus(b[c], readopen, killed)
    && (forall d :: 0 <= d < |a| && d != c ==> b[d] == if b[c].st == Ended(-1) then a[d] else Waken(a[d], false))
  }

  function WriteStatus(w: Call, readopen: bool, killed: set<nat>): Status
    requires w.WriteCall?
  {
    if w.next == |w.addr| then Ended(|w.addr|) else if !readopen || w.p in killed then Ended(-1) else Asleep
  }

  /** The same for read c, which wakes the writers if it has read. */
  ghost predicate AfterRead(a: seq<Call>, b: seq<Call>, c: nat) {
    && c < |a| == |b| && a[c].ReadCall? && b[c].ReadCall? && b[c].n == a[c].n && b[c].p == a[c].p
    && !b[c].st.Ready?
    && (forall d :: 0 <= d < |a| && d != c ==>
          b[d] == if b[c].st.Ended? && b[c].st.r >= 0 then Waken(a[d], true) else a[d])
  }

  /** Which calls are pending, once call c has gone on. */
  lemma CallsAfter(a: seq<Call>, b: seq<Call>, pending: map<nat, nat>, c: nat)
    requires CallsInv(a, pending) && c < |a| == |b| && !a[c].st.Ended? && b[c].p == a[c].p
    requires forall d :: 0 <= d < |a| && d != c ==> b[d].p == a[d].p && (b[d].st.Ended? <==> a[d].st.Ended?)
    ensures CallsInv(b, if b[c].st.Ended? then pending - {a[c].p} else pending)
  {
  }

  lemma SleepAfterWrite(a: seq<Call>, b: seq<Call>, c: nat, killed: set<nat>, n: int, n': int, readopen: bool,
                        writeopen: bool, stranded: bool)
    requires SleepInv(a, killed, n, readopen, writeopen, stranded) && AfterWrite(a, b, c, readopen, killed)
    requires n <= n' <= PIPESIZE && (b[c].next < |b[c].addr| ==> n' == PIPESIZE) && (n' > n <==> b[c].next > a[c].next)
    ensures var s := b[c].st == Ended(-1) && (stranded || b[c].next > a[c].next);
            SleepInv(b, killed, n', readopen, writeopen, s)
  {
  }

  lemma SleepAfterRead(a: seq<Call>, b: seq<Call>, c: nat, killed: set<nat>, n: int, n': int, readopen: bool,
                       writeopen: bool, stranded: bool)
    requires SleepInv(a, killed, n, readopen, writeopen, stranded) && AfterRead(a, b, c) && 0 <= n' <= n
    requires b[c].st.Asleep? ==> n' == 0 && writeopen && b[c].p !in killed
    requires n' < n ==> b[c].st.Ended? && b[c].st.r >= 0
    ensures SleepInv(b, killed, n', readopen, writeopen, stranded)
  {
  }

  // ---------- the calls on a pipe, as a value ----------

  /** accepted and delivered are the pipe's bytes; from says which call put each in, and
      returned lists the reads that have ended. */
  datatype Log = Log(accepted: seq<Byte>, delivered: seq<Byte>, from: seq<nat>, returned: seq<nat>, stranded: bool)

  datatype Ends = Ends(readopen: bool, writeopen: bool)

  ghost predicate AllInv(calls: seq<Call>, pending: map<nat, nat>, killed: set<nat>, l: Log, e: Ends) {
    && CallsInv(calls, pending) && WritesInv(calls, l.accepted, l.from) && ReadsInv(calls, l.returned, l.delivered)
    && SleepInv(calls, killed, |l.accepted| - |l.delivered|, e.readopen, e.writeopen, l.stranded)
    && (l.stranded ==> SomeStranded(calls)) && FailedInv(calls, killed, e.readopen)
  }

  /** Only a write whose process is killed, or that nobody can read, has failed. */
  ghost predicate FailedInv(calls: seq<Call>, killed: set<nat>, readopen: bool) {
    forall c :: 0 <= c < |calls| && calls[c].WriteCall? && calls[c].st == Ended(-1) ==>
      calls[c].p in killed || !readopen
  }

  /** Who has failed, when only call c may have ended since. */
  lemma FailedAfter(a: seq<Call>, b: seq<Call>, c: nat, killed: set<nat>, readopen: bool)
    requires FailedInv(a, killed, readopen) && c < |a| == |b|
    requires forall d :: 0 <= d < |a| && d != c ==> b[d] == a[d] || (!a[d].st.Ended? && !b[d].st.Ended?)
    requires b[c].WriteCall? && b[c].st == Ended(-1) ==> b[c].p in killed || !readopen
    ensures FailedInv(b, killed, readopen)
  {
  }

  /** A write that put bytes in and then failed. */
  ghost predicate SomeStranded(calls: seq<Call>) {
    exists c :: 0 <= c < |calls| && FailedWrite(calls[c])
  }

  predicate FailedWrite(c: Call) {
    c.WriteCall? && c.st == Ended(-1) && c.next > 0
  }

  lemma StrandedStill(a: seq<Call>, b: seq<Call>)
    requires SomeStranded(a) && |a| <= |b| && forall c :: 0 <= c < |a| && a[c].st.Ended? ==> b[c] == a[c]
    ensures SomeStranded(b)
  {
    var c :| 0 <= c < |a| && FailedWrite(a[c]);
    assert FailedWrite(b[c]);
  }

  function WroteTo(calls: seq<Call>, c: nat, next: nat, st: Status): seq<Call>
    requires c < |calls| && calls[c].WriteCall?
  {
    var mid := calls[c := calls[c].(next := next, st := st)];
    if st == Ended(-1) then mid else Woken(mid, false)
  }

  function WroteLog(l: Log, c: nat, more: seq<Byte>, failed: bool): Log {
    Log(l.accepted + more, l.delivered, l.from + Repeat(c, |more|), l.returned, failed && (l.stranded || more != []))
  }

  function Pending(pending: map<nat, nat>, p: nat, st: Status): map<nat, nat> {
    if st.Ended? then pending - {p} else pending
  }

  lemma WroteToIs(calls: seq<Call>, c: nat, next: nat, st: Status)
    requires c < |calls| && calls[c].WriteCall?
    ensures var b := WroteTo(calls, c, next, st);
            && |b| == |calls| && b[c] == calls[c].(next := next, st := st)
            && forall d :: 0 <= d < |b| && d != c ==>
                 b[d] == if st == Ended(-1) then calls[d] else Waken(calls[d], false)
  {
  }

  lemma WriteKeepsWrites(calls: seq<Call>, l: Log, c: nat, next: nat, st: Status)
    requires WritesInv(calls, l.accepted, l.from) && c < |calls| && calls[c].WriteCall?
    requires calls[c].next <= next <= |calls[c].addr|
    requires st.Ended? ==> st.r == if next == |calls[c].addr| then |calls[c].addr| else -1
    ensures var more := Piece(calls[c].addr, calls[c].next, next);
            WritesInv(WroteTo(calls, c, next, st), l.accepted + more, l.from + Repeat(c, |more|))
  {
    hide WriteOk, Pick, WritesInv, Repeat;
    var more, mid := Piece(calls[c].addr, calls[c].next, next), calls[c := calls[c].(next := next, st := st)];
    WritesAfter(calls, l.accepted, l.from, c, next, st);
    WritesSame(mid, WroteTo(calls, c, next, st), l.accepted + more, l.from + Repeat(c, |more|));
  }

  lemma WriteKeepsRest(calls: seq<Call>, pending: map<nat, nat>, l: Log, c: nat, next: nat, st: Status)
    requires CallsInv(calls, pending) && ReadsInv(calls, l.returned, l.delivered)
    requires c < |calls| && calls[c].WriteCall? && calls[c].st.Ready?
    ensures ReadsInv(WroteTo(calls, c, next, st), l.returned, l.delivered)
    ensures CallsInv(WroteTo(calls, c, next, st), Pending(pending, calls[c].p, st))
  {
    hide ReadsInv, CallsInv, WroteTo;
    WroteToIs(calls, c, next, st);
    ReadsSame(calls, WroteTo(calls, c, next, st), l.returned, l.delivered);
    CallsAfter(calls, WroteTo(calls, c, next, st), pending, c);
  }

  lemma WriteIsAfter(calls: seq<Call>, killed: set<nat>, e: Ends, c: nat, next: nat, st: Status)
    requires c < |calls| && calls[c].WriteCall? && calls[c].next <= next <= |calls[c].addr|
    requires st == WriteStatus(calls[c].(next := next), e.readopen, killed)
    ensures AfterWrite(calls, WroteTo(calls, c, next, st), c, e.readopen, killed)
  {
    hide WroteTo;
    WroteToIs(calls, c, next, st);
  }

  lemma WriteKeeps(calls: seq<Call>, pending: map<nat, nat>, killed: set<nat>, l: Log, e: Ends, c: nat, next: nat,
                   st: Status)
    requires AllInv(calls, pending, killed, l, e) && c < |calls| && calls[c].WriteCall? && calls[c].st.Ready?
    requires calls[c].next <= next <= |calls[c].addr|
    requires st == WriteStatus(calls[c].(next := next), e.readopen, killed)
    requires var n := |l.accepted| + (next - calls[c].next) - |l.delivered|;
             n <= PIPESIZE && (next < |calls[c].addr| ==> n == PIPESIZE)
    ensures var more := Piece(calls[c].addr, calls[c].next, next);
            AllInv(WroteTo(calls, c, next, st), Pending(pending, calls[c].p, st), killed,
                   WroteLog(l, c, more, st == Ended(-1)), e)
    ensures AfterWrite(calls, WroteTo(calls, c, next, st), c, e.readopen, killed)
  {
    hide WroteTo, CallsInv, WritesInv, ReadsInv, SleepInv, FailedInv, Repeat, SomeStranded, AfterWrite, Pending;
    var b, more := WroteTo(calls, c, next, st), Piece(calls[c].addr, calls[c].next, next);
    WroteToIs(calls, c, next, st);
    WriteKeepsWrites(calls, l, c, next, st);
    WriteKeepsRest(calls, pending, l, c, next, st);
    WriteIsAfter(calls, killed, e, c, next, st);
    var n := |l.accepted| - |l.delivered|;
    SleepAfterWrite(calls, b, c, killed, n, n + |more|, e.readopen, e.writeopen, l.stranded);
    FailedAfter(calls, b, c, killed, e.readopen);
    WriteStrands(calls, l.stranded, c, next, st);
  }

  lemma WriteStrands(calls: seq<Call>, stranded: bool, c: nat, next: nat, st: Status)
    requires stranded ==> SomeStranded(calls)
    requires c < |calls| && calls[c].WriteCall? && calls[c].st.Ready? && calls[c].next <= next
    ensures st == Ended(-1) && (stranded || next > calls[c].next) ==> SomeStranded(WroteTo(calls, c, next, st))
  {
    var b := WroteTo(calls, c, next, st);
    if st == Ended(-1) && next > calls[c].next {
      assert FailedWrite(b[c]);
    } else if st == Ended(-1) && stranded {
      StrandedStill(calls, b);
    }
  }

  function ReadTo(calls: seq<Call>, c: nat, got: seq<Byte>, st: Status): seq<Call>
    requires c < |calls| && calls[c].ReadCall?
  {
    var mid := calls[c := calls[c].(got := got, st := st)];
    if st.Ended? && st.r >= 0 then Woken(mid, true) else mid
  }

  function ReadLog(l: Log, c: nat, got: seq<Byte>, ended: bool): Log {
    Log(l.accepted, l.delivered + got, l.from, if ended then l.returned + [c] else l.returned, l.stranded)
  }

  lemma ReadToIs(calls: seq<Call>, c: nat, got: seq<Byte>, st: Status)
    requires c < |calls| && calls[c].ReadCall?
    ensures var b := ReadTo(calls, c, got, st);
            && |b| == |calls| && b[c] == calls[c].(got := got, st := st)
            && forall d :: 0 <= d < |b| && d != c ==>
                 b[d] == if st.Ended? && st.r >= 0 then Waken(calls[d], true) else calls[d]
  {
  }

  lemma GotNothing(calls: seq<Call>, returned: seq<nat>, delivered: seq<Byte>, c: nat)
    requires ReadsInv(calls, returned, delivered) && c < |calls| && calls[c].ReadCall? && !calls[c].st.Ended?
    ensures calls[c].got == []
  {
  }

  lemma ReadKeepsReads(calls: seq<Call>, pending: map<nat, nat>, l: Log, c: nat, got: seq<Byte>, st: Status)
    requires CallsInv(calls, pending) && ReadsInv(calls, l.returned, l.delivered)
    requires c < |calls| && calls[c].ReadCall? && calls[c].st.Ready? && |got| <= calls[c].n
    requires if st.Ended? then st.r == |got| || (st.r == -1 && got == []) else got == []
    ensures ReadsInv(ReadTo(calls, c, got, st), if st.Ended? then l.returned + [c] else l.returned, l.delivered + got)
    ensures CallsInv(ReadTo(calls, c, got, st), Pending(pending, calls[c].p, st))
  {
    hide ReadsInv, CallsInv, ReadTo;
    var b, mid := ReadTo(calls, c, got, st), calls[c := calls[c].(got := got, st := st)];
    ReadToIs(calls, c, got, st);
    CallsAfter(calls, b, pending, c);
    if st.Ended? {
      ReadEnds(calls, l.returned, l.delivered, c, got, st.r);
      ReadsSame(mid, b, l.returned + [c], l.delivered + got);
    } else {
      assert l.delivered + got == l.delivered;
      GotNothing(calls, l.returned, l.delivered, c);
      ReadsSame(calls, b, l.returned, l.delivered);
    }
  }

  lemma ReadKeepsWrites(calls: seq<Call>, l: Log, c: nat, got: seq<Byte>, st: Status)
    requires WritesInv(calls, l.accepted, l.from) && c < |calls| && calls[c].ReadCall? && !st.Ready?
    ensures WritesInv(ReadTo(calls, c, got, st), l.accepted, l.from)
    ensures AfterRead(calls, ReadTo(calls, c, got, st), c)
  {
    hide WritesInv, ReadTo;
    ReadToIs(calls, c, got, st);
    WritesSame(calls, ReadTo(calls, c, got, st), l.accepted, l.from);
  }

  lemma ReadKeeps(calls: seq<Call>, pending: map<nat, nat>, killed: set<nat>, l: Log, e: Ends, c: nat, got: seq<Byte>,
                  st: Status)
    requires AllInv(calls, pending, killed, l, e) && c < |calls| && calls[c].ReadCall? && calls[c].st.Ready?
    requires |got| <= calls[c].n && |l.delivered| + |got| <= |l.accepted| && !st.Ready?
    requires st.Ended? ==> st.r == |got| || (st.r == -1 && got == [])
    requires st.Asleep? ==> got == [] && |l.accepted| == |l.delivered| && e.writeopen && calls[c].p !in killed
    ensures AllInv(ReadTo(calls, c, got, st), Pending(pending, calls[c].p, st), killed, ReadLog(l, c, got, st.Ended?),
            e)
    ensures AfterRead(calls, ReadTo(calls, c, got, st), c)
  {
    hide ReadTo, CallsInv, WritesInv, ReadsInv, SleepInv, FailedInv, SomeStranded, AfterRead, Pending;
    var b := ReadTo(calls, c, got, st);
    ReadToIs(calls, c, got, st);
    ReadKeepsWrites(calls, l, c, got, st);
    ReadKeepsReads(calls, pending, l, c, got, st);
    var n := |l.accepted| - |l.delivered|;
    SleepAfterRead(calls, b, c, killed, n, n - |got|, e.readopen, e.writeopen, l.stranded);
    FailedAfter(calls, b, c, killed, e.readopen);
    if l.stranded { StrandedStill(calls, b); }
  }

  /** Some sleepers are woken, because a process is killed or an end is closed. */
  lemma WakeKeeps(calls: seq<Call>, b: seq<Call>, pending: map<nat, nat>, killed: set<nat>, killed': set<nat>, l: Log,
                  e: Ends, e': Ends)
    requires AllInv(calls, pending, killed, l, e) && |b| == |calls| && killed <= killed'
    requires e'.readopen ==> e.readopen
    requires forall c :: 0 <= c < |calls| ==>
             b[c] == calls[c] || (calls[c].st.Asleep? && b[c] == Waken(calls[c], calls[c].WriteCall?))
    requires forall c :: 0 <= c < |calls| && b[c].st.Asleep? ==>
               b[c].p !in killed' - killed
                   && (if b[c].WriteCall? then e'.readopen == e.readopen else e'.writeopen == e.writeopen)
    ensures AllInv(b, pending, killed', l, e')
  {
    hide WriteOk, ReadOk, Gots, Pick, CallsInv, WritesInv, ReadsInv, SleepInv, SomeStranded;
    WritesSame(calls, b, l.accepted, l.from);
    ReadsSame(calls, b, l.returned, l.delivered);
    WakeCalls(calls, b, pending);
    WakeSleep(calls, b, killed, killed', |l.accepted| - |l.delivered|, e, e', l.stranded);
    if l.stranded { StrandedStill(calls, b); }
  }

  lemma WakeCalls(calls: seq<Call>, b: seq<Call>, pending: map<nat, nat>)
    requires CallsInv(calls, pending) && |b| == |calls|
    requires forall c :: 0 <= c < |calls| ==> b[c].p == calls[c].p && (b[c].st.Ended? <==> calls[c].st.Ended?)
    ensures CallsInv(b, pending)
  {
  }

  lemma WakeSleep(calls: seq<Call>, b: seq<Call>, killed: set<nat>, killed': set<nat>, n: int, e: Ends, e': Ends,
                  stranded: bool)
    requires SleepInv(calls, killed, n, e.readopen, e.writeopen, stranded) && |b| == |calls|
    requires forall c :: 0 <= c < |calls| && b[c].st.Asleep? ==>
               && b[c] == calls[c] && b[c].p !in killed' - killed
               && (if b[c].WriteCall? then e'.readopen == e.readopen else e'.writeopen == e.writeopen)
    ensures SleepInv(b, killed', n, e'.readopen, e'.writeopen, stranded)
  {
  }

  /** A process begins a call. */
  lemma BeginKeeps(calls: seq<Call>, pending: map<nat, nat>, killed: set<nat>, l: Log, e: Ends, x: Call)
    requires AllInv(calls, pending, killed, l, e) && x.p !in pending && x.st.Ready?
    requires if x.WriteCall? then x.next == 0 else x.got == []
    ensures AllInv(calls + [x], pending[x.p := |calls|], killed, l, e)
  {
    hide WriteOk, ReadOk, Gots, Pick, WritesInv, ReadsInv, SomeStranded;
    WritesSame(calls, calls + [x], l.accepted, l.from);
    ReadsSame(calls, calls + [x], l.returned, l.delivered);
    if l.stranded { StrandedStill(calls, calls + [x]); }
  }

  /** What may happen to a call from now on. */
  ghost predicate Forward(a: seq<Call>, b: seq<Call>) {
    && |a| <= |b|
    && forall c :: 0 <= c < |a| ==> Later(a[c], b[c])
  }

  ghost predicate Later(x: Call, y: Call) {
    && x.WriteCall? == y.WriteCall? && x.p == y.p && (x.st.Ended? ==> y == x)
    && (x.WriteCall? ==> y.addr == x.addr && x.next <= y.next)
  }

  /** What processes do: begin a call, go on with it, are killed, or close an end. */
  datatype Event =
    | Write(p: nat, addr: seq<Byte>)
    | Read(p: nat, n: nat)
    | GoOn(p: nat)
    | Kill(p: nat)
    | Close(writable: bool)

  /** Call c has gone on, as far as it can: until it ends, or the ring is full or empty. */
  ghost predicate WentOn(a: seq<Call>, b: seq<Call>, c: nat, l: Log, m: Log, e: Ends, killed: set<nat>) {
    && c < |a| == |b| && (a[c].WriteCall? <==> b[c].WriteCall?)
    && if a[c].WriteCall? then
         && AfterWrite(a, b, c, e.readopen, killed)
         && m == WroteLog(l, c, Piece(a[c].addr, a[c].next, b[c].next), b[c].st == Ended(-1))
         && |m.accepted| - |m.delivered| <= PIPESIZE
         && (b[c].next < |b[c].addr| ==> |m.accepted| - |m.delivered| == PIPESIZE)
       else
         && AfterRead(a, b, c) && m == ReadLog(l, c, b[c].got, b[c].st.Ended?)
         && |l.delivered| <= |l.accepted| && m.delivered <= m.accepted
         && b[c].st == ReadStatus(b[c], |l.accepted| - |l.delivered|, e.writeopen, killed)
         && |b[c].got| == if b[c].st.Ended? && b[c].st.r >= 0 then Least(|l.accepted| - |l.delivered|, b[c].n) else 0
  }

  function ReadStatus(x: Call, have: nat, writeopen: bool, killed: set<nat>): Status
    requires x.ReadCall?
  {
    if have > 0 || !writeopen then Ended(|x.got|) else if x.p in killed then Ended(-1) else Asleep
  }

  function Least(a: nat, b: nat): (r: nat)
    ensures r <= a && r <= b && (r == a || r == b)
  {
    if a < b then a else b
  }

  /** What an event does to the calls: a and b are before and after it. */
  ghost predicate Does(ev: Event, a: seq<Call>, q: map<nat, nat>, b: seq<Call>, l: Log, m: Log, e: Ends,
                       killed: set<nat>) {
    match ev
    case Write(p, addr) => Makes(WriteCall(p, addr, 0, Ready), a, q, b, l, m, e, killed)
    case Read(p, n) => Makes(ReadCall(p, n, [], Ready), a, q, b, l, m, e, killed)
    case GoOn(p) =>
      if p in q && q[p] < |a| && a[q[p]].st.Ready? then WentOn(a, b, q[p], l, m, e, killed) else b == a && m == l
    case Kill(p) => b == Roused(a, p) && p in killed && m == l
    case Close(writable) => b == Woken(a, !writable) && (if writable then !e.writeopen else !e.readopen) && m == l
  }

  /** A process begins call x, unless it is in a call. */
  ghost predicate Makes(x: Call, a: seq<Call>, q: map<nat, nat>, b: seq<Call>, l: Log, m: Log, e: Ends,
                        killed: set<nat>) {
    if x.p in q then b == a && m == l else WentOn(a + [x], b, |a|, l, m, e, killed)
  }

  /** More has gone in and come out, and more reads have ended. */
  ghost predicate Grown(l: Log, m: Log) {
    l.accepted <= m.accepted && l.delivered <= m.delivered && l.from <= m.from && l.returned <= m.returned
  }

  /** The call that process p sleeps in, if any, is to go on. */
  function Roused(calls: seq<Call>, p: nat): (r: seq<Call>)
    ensures |r| == |calls|
    ensures forall c :: 0 <= c < |calls| ==>
              r[c] == if calls[c].p == p then Waken(calls[c], calls[c].WriteCall?) else calls[c]
  {
    seq(|calls|, c requires 0 <= c < |calls| =>
      if calls[c].p == p then Waken(calls[c], calls[c].WriteCall?) else calls[c])
  }

  lemma WentForward(a: seq<Call>, b: seq<Call>, c: nat, l: Log, m: Log, e: Ends, killed: set<nat>)
    requires WentOn(a, b, c, l, m, e, killed) && a[c].st.Ready?
    ensures Forward(a, b)
  {
  }

  lemma WokenForward(a: seq<Call>, b: seq<Call>)
    requires |a| == |b| && forall c :: 0 <= c < |a| ==> b[c] == a[c] || b[c] == Waken(a[c], a[c].WriteCall?)
    ensures Forward(a, b)
  {
  }

  lemma Onward(a: seq<Call>, b: seq<Call>, c: seq<Call>, l: Log, m: Log, n: Log)
    requires Forward(a, b) && Forward(b, c) && Grown(l, m) && Grown(m, n)
    ensures Forward(a, c) && Grown(l, n)
  {
    forall k | 0 <= k < |a| ensures Later(a[k], c[k]) {
      assert Later(a[k], b[k]) && Later(b[k], c[k]);
    }
  }

  lemma Stays(a: seq<Call>, l: Log)
    ensures Forward(a, a) && Grown(l, l)
  {
  }

  lemma Begun(a: seq<Call>, q: map<nat, nat>, b: seq<Call>, x: Call, l: Log, m: Log, e: Ends, killed: set<nat>)
    requires Makes(x, a, q, b, l, m, e, killed) && x.st.Ready?
    ensures Forward(a, b)
  {
    if x.p in q {
    } else {
      WentForward(a + [x], b, |a|, l, m, e, killed);
    }
  }

  // ---------- runs ----------

  /** A pipe, as its callers see it, and their calls. */
  datatype Scene = Scene(calls: seq<Call>, pending: map<nat, nat>, killed: set<nat>, log: Log, ends: Ends)

  ghost predicate SceneInv(x: Scene) {
    AllInv(x.calls, x.pending, x.killed, x.log, x.ends) && Room(x.log)
  }

  /** What has come out has gone in, and no more is in between than fits. */
  ghost predicate Room(l: Log) {
    l.delivered <= l.accepted && |l.accepted| <= |l.delivered| + PIPESIZE
  }

  /** An empty pipe, both ends open, and no call yet. */
  ghost predicate Begins(x: Scene) {
    x == Scene([], map[], {}, Log([], [], [], [], false), Ends(true, true))
  }

  ghost predicate Happens(ev: Event, x: Scene, y: Scene) {
    && Does(ev, x.calls, x.pending, y.calls, x.log, y.log, y.ends, y.killed)
    && CallsInv(y.calls, y.pending)
    && y.killed == (if ev.Kill? then x.killed + {ev.p} else x.killed)
    && y.ends == Ends(x.ends.readopen && ev != Close(false), x.ends.writeopen && ev != Close(true))
  }

  ghost predicate Run(q: seq<Scene>, evs: seq<Event>) {
    |q| == |evs| + 1 && forall k :: 0 <= k < |evs| ==> Happens(evs[k], q[k], q[k + 1])
  }

  lemma RunNone(x: Scene)
    ensures Run([x], [])
  {
  }

  lemma PendingRight(x: Scene)
    requires SceneInv(x)
    ensures CallsInv(x.calls, x.pending)
  {
  }

  lemma RunMore(q: seq<Scene>, evs: seq<Event>, ev: Event, y: Scene)
    requires Run(q, evs) && Happens(ev, q[|evs|], y)
    ensures Run(q + [y], evs + [ev])
  {
    hide Happens;
    var r, es := q + [y], evs + [ev];
    forall k | 0 <= k < |es| ensures Happens(es[k], r[k], r[k + 1]) {
      if k < |evs| { assert Happens(evs[k], q[k], q[k + 1]); }
    }
  }

  /** The calls that processes make on a pipe. A process has one at a time, and goes on with
      it when it has been woken. */
  class Calls {
    const pipe: Pipe
    var calls: seq<Call>
    var pending: map<nat, nat>
    var killed: set<nat>
    ghost var from: seq<nat>
    ghost var returned: seq<nat>
    ghost var stranded: bool

    ghost function L(): Log
      reads this, pipe
    {
      Log(pipe.accepted, pipe.delivered, from, returned, stranded)
    }

    ghost function E(): Ends
      reads this, pipe
    {
      Ends(pipe.readopen, pipe.writeopen)
    }

    ghost predicate Valid()
      reads this, pipe, pipe.data
    {
      pipe.Valid() && AllInv(calls, pending, killed, L(), E())
    }

    ghost function Here(): Scene
      reads this, pipe
    {
      Scene(calls, pending, killed, L(), E())
    }

    constructor ()
      ensures Valid() && fresh(pipe) && fresh(pipe.data) && Begins(Here())
    {
      pipe := new Pipe();
      calls, pending, killed, from, returned, stranded := [], map[], {}, [], [], false;
    }

    /** A write goes on until it ends or sleeps. */
    method WriteStretch(c: nat)
      requires Valid() && c < |calls| && calls[c].WriteCall? && calls[c].st.Ready?
      modifies this`calls, this`pending, this`from, this`stranded, pipe, pipe.data
      ensures Valid() && AfterWrite(old(calls), calls, c, pipe.readopen, killed) && E() == old(E())
      ensures Grown(old(L()), L()) && old(calls)[c].next <= calls[c].next <= |old(calls)[c].addr|
      ensures L() == WroteLog(old(L()), c, Piece(old(calls)[c].addr, old(calls)[c].next, calls[c].next),
                              calls[c].st == Ended(-1))
      ensures calls[c].next < |calls[c].addr| ==> |pipe.accepted| - |pipe.delivered| == PIPESIZE
    {
      hide AllInv, AfterWrite, WroteTo, Pending, Pipe.Valid, Piece, WroteLog;
      ghost var before := calls;
      var next, st, woke;
      ghost var now;
      next, st, woke, now := PutIn(c);
      Went(c, next, st, woke, now);
      WroteToIs(before, c, next, st);
    }

    /** Its bytes go into the ring. */
    method PutIn(c: nat) returns (next: nat, st: Status, woke: bool, ghost now: Log)
      requires Valid() && c < |calls| && calls[c].WriteCall? && calls[c].st.Ready?
      modifies pipe, pipe.data
      ensures pipe.Valid() && calls[c].next <= next <= |calls[c].addr| && (woke <==> st != Ended(-1)) && E() == old(E())
      ensures AllInv(WroteTo(calls, c, next, st), Pending(pending, calls[c].p, st), killed, now, E())
      ensures AfterWrite(calls, WroteTo(calls, c, next, st), c, pipe.readopen, killed)
      ensures now == Log(pipe.accepted, pipe.delivered, now.from, returned, now.stranded) && from <= now.from
      ensures now == WroteLog(old(L()), c, Piece(calls[c].addr, calls[c].next, next), st == Ended(-1))
      ensures old(pipe.accepted) <= pipe.accepted && pipe.delivered == old(pipe.delivered)
      ensures next < |calls[c].addr| ==> |pipe.accepted| - |pipe.delivered| == PIPESIZE
    {
      NextInAddr(calls, pipe.accepted, from, c);
      hide AllInv, Repeat, AfterWrite, WriteStatus, WroteTo, Pending, Piece;
      var w := calls[c];
      ghost var l, e := L(), E();
      var r;
      next, r, woke := pipe.WriteOn(w.addr, w.next, w.p in killed);
      PipeRoom(pipe);
      hide Pipe.Valid;
      st := if r.Sleeps? then Asleep else Ended(r.r);
      StatusIs(w, next, e.readopen, killed, r);
      WriteKeeps(calls, pending, killed, l, e, c, next, st);
      now := WroteLog(l, c, Piece(w.addr, w.next, next), st == Ended(-1));
    }

    /** How far write c has come. */
    method Went(c: nat, next: nat, st: Status, woke: bool, ghost now: Log)
      requires c < |calls| && calls[c].WriteCall? && (woke <==> st != Ended(-1))
      modifies this`calls, this`pending, this`from, this`stranded
      ensures calls == WroteTo(old(calls), c, next, st) && pending == Pending(old(pending), old(calls)[c].p, st)
      ensures from == now.from && stranded == now.stranded
    {
      var w := calls[c];
      calls := calls[c := w.(next := next, st := st)];
      if woke { calls := Woken(calls, false); }
      if st.Ended? { pending := pending - {w.p}; }
      from, stranded := now.from, now.stranded;
    }

    /** A read goes on until it ends or sleeps. */
    method ReadStretch(c: nat)
      requires Valid() && c < |calls| && calls[c].ReadCall? && calls[c].st.Ready?
      modifies this`calls, this`pending, this`returned, pipe, pipe.data
      ensures Valid() && AfterRead(old(calls), calls, c) && E() == old(E()) && Grown(old(L()), L())
      ensures L() == ReadLog(old(L()), c, calls[c].got, calls[c].st.Ended?)
      ensures |old(pipe.delivered)| <= |pipe.accepted| && pipe.delivered <= pipe.accepted
      ensures calls[c].st == ReadStatus(calls[c], |pipe.accepted| - |old(pipe.delivered)|, pipe.writeopen, killed)
      ensures |calls[c].got| == if calls[c].st.Ended? && calls[c].st.r >= 0
                                then Least(|pipe.accepted| - |old(pipe.delivered)|, calls[c].n) else 0
    {
      hide AllInv, AfterRead;
      var x := calls[c];
      NoneYet(calls, pending, killed, L(), E(), c);
      ghost var before, l, e, q := calls, L(), E(), pending;
      PipeRoom(pipe);
      var got, r, woke := pipe.ReadOn(x.n, x.p in killed);
      PipeRoom(pipe);
      hide Pipe.Valid;
      var st := if r.Sleeps? then Asleep else Ended(r.r);
      ReadKeeps(before, q, killed, l, e, c, got, st);
      calls := calls[c := x.(got := got, st := st)];
      if st.Ended? { pending, returned := pending - {x.p}, returned + [c]; }
      if woke { calls := Woken(calls, true); }
      assert L() == ReadLog(l, c, got, st.Ended?);
    }

    /** Process p makes call x, if it is not in a call. */
    method Begin(x: Call)
      requires Valid() && x.st.Ready? && if x.WriteCall? then x.next == 0 else x.got == []
      modifies this`calls, this`pending, this`from, this`stranded, this`returned, pipe, pipe.data
      ensures Valid() && E() == old(E()) && Grown(old(L()), L())
      ensures Makes(x, old(calls), old(pending), calls, old(L()), L(), E(), killed)
    {
      hide AllInv, AfterWrite, AfterRead, Pipe.Valid;
      if x.p in pending { return; }
      BeginKeeps(calls, pending, killed, L(), E(), x);
      var c := |calls|;
      calls, pending := calls + [x], pending[x.p := c];
      Continue(c);
    }

    /** Call c goes on. */
    method Continue(c: nat)
      requires Valid() && c < |calls| && calls[c].st.Ready?
      modifies this`calls, this`pending, this`from, this`stranded, this`returned, pipe, pipe.data
      ensures Valid() && E() == old(E()) && Grown(old(L()), L())
      ensures WentOn(old(calls), calls, c, old(L()), L(), E(), killed)
    {
      hide AllInv, Pipe.Valid, Piece;
      if calls[c].WriteCall? { WriteStretch(c); } else { ReadStretch(c); }
      PipeRoom(pipe);
    }

    /** Process p goes on with its call, if it has one and has been woken. */
    method GoOn(p: nat)
      requires Valid()
      modifies this`calls, this`pending, this`from, this`stranded, this`returned, pipe, pipe.data
      ensures Valid() && E() == old(E()) && Grown(old(L()), L())
      ensures Does(Event.GoOn(p), old(calls), old(pending), calls, old(L()), L(), E(), killed)
    {
      hide AllInv, WentOn, Pipe.Valid;
      if p in pending && pending[p] < |calls| && calls[pending[p]].st.Ready? { Continue(pending[p]); }
    }

    /** Process p is killed, and woken if it sleeps. */
    method Kill(p: nat)
      requires Valid()
      modifies this`calls, this`killed
      ensures Valid() && E() == old(E()) && L() == old(L())
      ensures killed == old(killed) + {p} && calls == Roused(old(calls), p)
    {
      hide AllInv, Pipe.Valid;
      WakeKeeps(calls, Roused(calls, p), pending, killed, killed + {p}, L(), E(), E());
      calls, killed := Roused(calls, p), killed + {p};
    }

    /** An end is closed, and those at the other end woken. */
    method Close(writable: bool)
      requires Valid()
      modifies this`calls, pipe`readopen, pipe`writeopen
      ensures Valid() && L() == old(L()) && calls == Woken(old(calls), !writable)
      ensures if writable then !pipe.writeopen && pipe.readopen == old(pipe.readopen)
              else !pipe.readopen && pipe.writeopen == old(pipe.writeopen)
    {
      hide AllInv, Pipe.Valid;
      ghost var e := E();
      var gone := pipe.Close(writable);
      WakeKeeps(calls, Woken(calls, !writable), pending, killed, killed, L(), e, E());
      calls := Woken(calls, !writable);
    }

    /** What one event does to the calls. */
    method Step(e: Event)
      requires Valid()
      modifies this, pipe, pipe.data
      ensures Valid() && Grown(old(L()), L()) && Forward(old(calls), calls)
      ensures Happens(e, old(Here()), Here())
    {
      hide AllInv, Pipe.Valid, WentOn, Grown, Forward, Makes, CallsInv;
      ghost var before, q, l := calls, pending, L();
      Stays(before, l);
      match e {
        case Write(p, addr) =>
          var x := WriteCall(p, addr, 0, Ready);
          Begin(x);
          Begun(before, q, calls, x, l, L(), E(), killed);
        case Read(p, n) =>
          var x := ReadCall(p, n, [], Ready);
          Begin(x);
          Begun(before, q, calls, x, l, L(), E(), killed);
        case GoOn(p) =>
          GoOn(p);
          if calls != before { WentForward(before, calls, q[p], l, L(), E(), killed); }
        case Kill(p) =>
          Kill(p);
          WokenForward(before, calls);
        case Close(writable) =>
          Close(writable);
          WokenForward(before, calls);
      }
      PipeRoom(pipe);
      PendingRight(Here());
    }

    /** Any number of processes, in any interleaving: the events have happened one after the
        other, in the scenes q. */
    method Interleave(events: seq<Event>) returns (ghost q: seq<Scene>)
      requires Valid()
      modifies this, pipe, pipe.data
      ensures Valid() && Grown(old(L()), L()) && Forward(old(calls), calls)
      ensures Run(q, events) && q[0] == old(Here()) && q[|events|] == Here()
      ensures forall c: nat :: c < |calls| && calls[c].WriteCall? && calls[c].st.Ended? && calls[c].st.r != -1 ==>
                |from| == |pipe.accepted| && Pick(pipe.accepted, from, c) == calls[c].addr
      ensures pipe.delivered == Gots(calls, returned) && pipe.delivered <= pipe.accepted
      ensures forall c: nat :: c < |calls| && calls[c].st.Asleep? ==> Waits(Here(), c)
      ensures pipe.readopen && (forall c :: 0 <= c < |calls| && calls[c].WriteCall? ==> calls[c].p !in killed) ==>
                forall c: nat :: c < |calls| ==> !Beside(Here(), c)
    {
      hide Waits, Beside, AllInv, Pipe.Valid, Grown, Forward, Pick, Gots, Run, Happens;
      var i := 0;
      ghost var first, l := calls, L();
      Stays(first, l);
      q := [Here()];
      assert Run(q, events[..0]) by { RunNone(Here()); }
      while i < |events|
        invariant i <= |events| && Valid() && Grown(l, L()) && Forward(first, calls)
        invariant |q| == i + 1 && Run(q, events[..i]) && q[0] == old(Here()) && q[i] == Here()
      {
        ghost var mid, m := calls, L();
        Step(events[i]);
        Onward(first, mid, calls, l, m, L());
        RunMore(q, events[..i], events[i], Here());
        q := q + [Here()];
        assert events[..i] + [events[i]] == events[..i + 1];
        i := i + 1;
      }
      assert events[..i] == events;
      WhatCallsGot(calls, pending, killed, L(), E());
      PipeRoom(pipe);
      NoLostWakeup(Here());
      NobodyKilled(Here());
    }
  }

  lemma InCall(calls: seq<Call>, pending: map<nat, nat>, killed: set<nat>, l: Log, e: Ends, p: nat)
    requires AllInv(calls, pending, killed, l, e)
    ensures p in pending <==> exists c :: 0 <= c < |calls| && calls[c].p == p && !calls[c].st.Ended?
  {
    hide WritesInv, ReadsInv, SleepInv, SomeStranded;
  }

  function Zeros(n: nat): (r: seq<Byte>)
    ensures |r| == n
  {
    seq(n, _ => 0)
  }

  /** A reader comes to an empty pipe; a writer that is killed has one byte more than fits. */
  const STRAND: seq<Event> := [Event.Read(1, 1), Event.Kill(2), Event.Write(2, Zeros(PIPESIZE + 1))]

  /** A run that leaves a reader asleep beside a full ring. */
  method ReaderLeftAsleep() returns (c: Calls, ghost q: seq<Scene>)
    ensures fresh(c) && c.Valid() && Run(q, STRAND) && Begins(q[0]) && q[|STRAND|] == c.Here()
    ensures Beside(c.Here(), 0) && |c.pipe.accepted| - |c.pipe.delivered| == PIPESIZE
    ensures c.pipe.readopen && c.pipe.writeopen && c.killed == {2}
  {
    hide AllInv, Pipe.Valid, Forward, Grown, Zeros, Pick, Gots, Run, CallsInv;
    c := new Calls();
    RunNone(c.Here());
    q := [c.Here()];
    c.Step(STRAND[0]);
    RunMore(q, [], STRAND[0], c.Here());
    q := q + [c.Here()];
    PipeRoom(c.pipe);
    c.Step(STRAND[1]);
    RunMore(q, [] + [STRAND[0]], STRAND[1], c.Here());
    q := q + [c.Here()];
    InCall(c.calls, c.pending, c.killed, c.L(), c.E(), 2);
    c.Step(STRAND[2]);
    RunMore(q, [] + [STRAND[0]] + [STRAND[1]], STRAND[2], c.Here());
    q := q + [c.Here()];
    assert [] + [STRAND[0]] + [STRAND[1]] + [STRAND[2]] == STRAND;
    PipeRoom(c.pipe);
  }

  // ---------- what follows for every run ----------

  /** A write that returns without failing has put in all its bytes, in order, among those
      of the others; the reads, in the order in which they ended, got what came out. */
  lemma WhatCallsGot(calls: seq<Call>, pending: map<nat, nat>, killed: set<nat>, l: Log, e: Ends)
    requires AllInv(calls, pending, killed, l, e)
    ensures |l.from| == |l.accepted|
    ensures forall c: nat :: c < |calls| && calls[c].WriteCall? && calls[c].st.Ended? && calls[c].st.r != -1 ==>
              calls[c].st.r == |calls[c].addr| && Pick(l.accepted, l.from, c) == calls[c].addr
    ensures Distinct(l.returned) && l.delivered == Gots(calls, l.returned)
    ensures forall c: nat :: c < |calls| && calls[c].ReadCall? && calls[c].st.Ended? ==>
              c in l.returned && (calls[c].st.r == |calls[c].got| || (calls[c].st.r == -1 && calls[c].got == []))
  {
    forall c: nat | c < |calls| && calls[c].WriteCall? && calls[c].st.Ended? && calls[c].st.r != -1
      ensures calls[c].st.r == |calls[c].addr| && Pick(l.accepted, l.from, c) == calls[c].addr
    {
      assert WriteOk(calls[c], Pick(l.accepted, l.from, c));
    }
    forall c: nat | c < |calls| && calls[c].ReadCall? && calls[c].st.Ended?
      ensures c in l.returned && (calls[c].st.r == |calls[c].got| || (calls[c].st.r == -1 && calls[c].got == []))
    {
      assert ReadOk(calls[c]);
    }
  }

  /** Sleeper c has something to wait for. The one exception is a reader, when a write has
      put bytes in and failed, and no write has woken the readers since. */
  ghost predicate Waits(x: Scene, c: nat)
    requires c < |x.calls|
  {
    && x.calls[c].p !in x.killed
    && if x.calls[c].WriteCall? then x.ends.readopen && |x.log.accepted| - |x.log.delivered| == PIPESIZE
       else x.ends.writeopen && (|x.log.accepted| == |x.log.delivered| || x.log.stranded)
  }

  lemma NoLostWakeup(x: Scene)
    requires SceneInv(x)
    ensures forall c: nat :: c < |x.calls| && x.calls[c].st.Asleep? ==> Waits(x, c)
  {
    hide CallsInv, WritesInv, ReadsInv, SomeStranded;
  }

  /** Reader r sleeps although there are bytes to read. */
  ghost predicate Beside(x: Scene, r: nat) {
    r < |x.calls| && x.calls[r].ReadCall? && x.calls[r].st.Asleep? && |x.log.accepted| != |x.log.delivered|
  }

  /** While the read end is open and no writer has been killed, no reader does. */
  lemma NobodyKilled(x: Scene)
    requires SceneInv(x)
    ensures x.ends.readopen && (forall c :: 0 <= c < |x.calls| && x.calls[c].WriteCall? ==> x.calls[c].p !in x.killed)
            ==> forall r: nat :: r < |x.calls| ==> !Beside(x, r)
  {
    hide CallsInv, WritesInv, ReadsInv;
  }

  // ---------- every run keeps the invariant ----------

  lemma WroteIs(a: seq<Call>, b: seq<Call>, c: nat, readopen: bool, killed: set<nat>)
    requires AfterWrite(a, b, c, readopen, killed)
    ensures b == WroteTo(a, c, b[c].next, b[c].st)
  {
    hide WroteTo;
    WroteToIs(a, c, b[c].next, b[c].st);
  }

  lemma ReadIs(a: seq<Call>, b: seq<Call>, c: nat)
    requires AfterRead(a, b, c)
    ensures b == ReadTo(a, c, b[c].got, b[c].st)
  {
    hide ReadTo;
    ReadToIs(a, c, b[c].got, b[c].st);
  }

  lemma OtherPending(calls: seq<Call>, q: map<nat, nat>, q': map<nat, nat>, killed: set<nat>, l: Log, e: Ends)
    requires AllInv(calls, q, killed, l, e) && CallsInv(calls, q')
    ensures AllInv(calls, q', killed, l, e)
  {
    hide CallsInv, WritesInv, ReadsInv, SleepInv, FailedInv, SomeStranded;
  }

  lemma WentKeeps(a: seq<Call>, b: seq<Call>, c: nat, q: map<nat, nat>, q': map<nat, nat>, l: Log, m: Log, e: Ends,
                  killed: set<nat>)
    requires AllInv(a, q, killed, l, e) && Room(l) && c < |a| && a[c].st.Ready?
    requires WentOn(a, b, c, l, m, e, killed) && CallsInv(b, q')
    ensures AllInv(b, q', killed, m, e) && Room(m)
  {
    hide AllInv, CallsInv, Pending, WroteTo, ReadTo;
    if a[c].WriteCall? {
      WroteIs(a, b, c, e.readopen, killed);
      WriteKeeps(a, q, killed, l, e, c, b[c].next, b[c].st);
      OtherPending(b, Pending(q, a[c].p, b[c].st), q', killed, m, e);
    } else {
      ReadIs(a, b, c);
      ReadKeeps(a, q, killed, l, e, c, b[c].got, b[c].st);
      OtherPending(b, Pending(q, a[c].p, b[c].st), q', killed, m, e);
    }
  }

  lemma MakesKeeps(w: Call, x: Scene, y: Scene)
    requires SceneInv(x) && w.st.Ready? && if w.WriteCall? then w.next == 0 else w.got == []
    requires Makes(w, x.calls, x.pending, y.calls, x.log, y.log, x.ends, x.killed) && CallsInv(y.calls, y.pending)
    requires y.ends == x.ends && y.killed == x.killed
    ensures SceneInv(y)
  {
    hide AllInv, CallsInv, WentOn, Room;
    if w.p in x.pending {
      OtherPending(x.calls, x.pending, y.pending, x.killed, x.log, x.ends);
    } else {
      BeginKeeps(x.calls, x.pending, x.killed, x.log, x.ends, w);
      WentKeeps(x.calls + [w], y.calls, |x.calls|, x.pending[w.p := |x.calls|], y.pending, x.log, y.log, x.ends,
                x.killed);
    }
  }

  lemma HappensKeeps(ev: Event, x: Scene, y: Scene)
    requires SceneInv(x) && Happens(ev, x, y)
    ensures SceneInv(y)
  {
    hide AllInv, CallsInv, WentOn, Room, Makes;
    match ev
    case Write(p, addr) => MakesKeeps(WriteCall(p, addr, 0, Ready), x, y);
    case Read(p, n) => MakesKeeps(ReadCall(p, n, [], Ready), x, y);
    case GoOn(p) =>
      if p in x.pending && x.pending[p] < |x.calls| && x.calls[x.pending[p]].st.Ready? {
        WentKeeps(x.calls, y.calls, x.pending[p], x.pending, y.pending, x.log, y.log, x.ends, x.killed);
      } else {
        OtherPending(x.calls, x.pending, y.pending, x.killed, x.log, x.ends);
      }
    case Kill(p) =>
      WakeKeeps(x.calls, y.calls, x.pending, x.killed, y.killed, x.log, x.ends, y.ends);
      OtherPending(y.calls, x.pending, y.pending, y.killed, y.log, y.ends);
    case Close(writable) =>
      WakeKeeps(x.calls, y.calls, x.pending, x.killed, y.killed, x.log, x.ends, y.ends);
      OtherPending(y.calls, x.pending, y.pending, y.killed, y.log, y.ends);
  }

  lemma {:induction false} RunKeeps(q: seq<Scene>, evs: seq<Event>, i: nat)
    requires Run(q, evs) && Begins(q[0]) && i < |q|
    ensures SceneInv(q[i])
    decreases i
  {
    if i == 0 {
      NothingYet(q[0]);
    } else {
      hide SceneInv, Happens;
      RunKeeps(q, evs, i - 1);
      assert Happens(evs[i - 1], q[i - 1], q[i - 1 + 1]);
      HappensKeeps(evs[i - 1], q[i - 1], q[i]);
    }
  }

  lemma NothingYet(x: Scene)
    requires Begins(x)
    ensures SceneInv(x)
  {
  }

  // ---------- exactly when a reader is left asleep beside bytes ----------

  /** Write w does not fit, and its process is killed or nobody can read: it will fail. */
  predicate Cuts(x: Scene, w: Call)
    requires w.WriteCall?
  {
    |w.addr| - w.next > PIPESIZE - (|x.log.accepted| - |x.log.delivered|) && (!x.ends.readopen || w.p in x.killed)
  }

  /** The event makes such a write go on. */
  predicate Strands(ev: Event, x: Scene) {
    match ev
    case Write(p, addr) => p !in x.pending && Cuts(x, WriteCall(p, addr, 0, Ready))
    case GoOn(p) => WriteGoesOn(x, p) && Cuts(x, x.calls[x.pending[p]])
    case _ => false
  }

  predicate WriteGoesOn(x: Scene, p: nat) {
    && p in x.pending && x.pending[p] < |x.calls|
    && x.calls[x.pending[p]].WriteCall? && x.calls[x.pending[p]].st.Ready?
  }

  /** The event makes some write go on. */
  predicate WriteGoes(ev: Event, x: Scene) {
    match ev
    case Write(p, _) => p !in x.pending
    case GoOn(p) => WriteGoesOn(x, p)
    case _ => false
  }

  predicate SleepsToRead(calls: seq<Call>, r: nat) {
    r < |calls| && calls[r].ReadCall? && calls[r].st.Asleep?
  }

  lemma WriteLeaves(x: Scene, a: seq<Call>, b: seq<Call>, c: nat, m: Log, r: nat)
    requires Room(x.log) && c < |a| && a[c].WriteCall? && a[c].next <= |a[c].addr| && a[c].st.Ready?
    requires WentOn(a, b, c, x.log, m, x.ends, x.killed)
    ensures SleepsToRead(b, r) && |m.accepted| != |m.delivered| <==> SleepsToRead(a, r) && Cuts(x, a[c])
  {
  }

  lemma ReadLeaves(x: Scene, a: seq<Call>, b: seq<Call>, c: nat, m: Log, r: nat)
    requires Room(x.log) && c < |a| && a[c].ReadCall? && a[c].st.Ready?
    requires WentOn(a, b, c, x.log, m, x.ends, x.killed)
    ensures SleepsToRead(b, r) && |m.accepted| != |m.delivered| ==>
              SleepsToRead(a, r) && |x.log.accepted| != |x.log.delivered|
  {
  }

  /** One event leaves reader r asleep beside bytes exactly if it makes a write go on that
      is to fail, or, when no write goes on, only if r was so before. */
  lemma LeftAsleep(ev: Event, x: Scene, y: Scene, r: nat)
    requires SceneInv(x) && Happens(ev, x, y)
    ensures WriteGoes(ev, x) ==> (Beside(y, r) <==> SleepsToRead(x.calls, r) && Strands(ev, x))
    ensures !WriteGoes(ev, x) && Beside(y, r) ==> Beside(x, r)
    ensures Strands(ev, x) ==> WriteGoes(ev, x)
  {
    hide WritesInv, ReadsInv, SleepInv, FailedInv, SomeStranded, CallsInv, WentOn, Cuts, Room;
    match ev
    case Write(p, addr) =>
      if p !in x.pending {
        WriteLeaves(x, x.calls + [WriteCall(p, addr, 0, Ready)], y.calls, |x.calls|, y.log, r);
      }
    case Read(p, n) =>
      if p !in x.pending {
        ReadLeaves(x, x.calls + [ReadCall(p, n, [], Ready)], y.calls, |x.calls|, y.log, r);
      }
    case GoOn(p) =>
      if WriteGoesOn(x, p) {
        NextInAddr(x.calls, x.log.accepted, x.log.from, x.pending[p]);
        WriteLeaves(x, x.calls, y.calls, x.pending[p], y.log, r);
      } else if p in x.pending && x.pending[p] < |x.calls| && x.calls[x.pending[p]].st.Ready? {
        ReadLeaves(x, x.calls, y.calls, x.pending[p], y.log, r);
      }
    case Kill(p) =>
    case Close(writable) =>
  }

  ghost predicate StrandsAt(q: seq<Scene>, evs: seq<Event>, k: nat, r: nat) {
    k < |evs| && k < |q| && Strands(evs[k], q[k]) && SleepsToRead(q[k].calls, r)
  }

  /** So a run has a reader asleep beside bytes if and only if, while some reader sleeps, a
      write goes on that does not fit and whose process is killed or that nobody can read. */
  lemma LostExactly(q: seq<Scene>, evs: seq<Event>)
    requires Run(q, evs) && Begins(q[0])
    ensures (exists i: nat, r: nat :: i < |q| && Beside(q[i], r)) <==> exists k: nat, r: nat :: StrandsAt(q, evs, k, r)
  {
    hide SceneInv, Happens, Beside, Strands, WriteGoes, SleepsToRead;
    if k: nat, r: nat :| StrandsAt(q, evs, k, r) {
      RunKeeps(q, evs, k);
      assert Happens(evs[k], q[k], q[k + 1]);
      LeftAsleep(evs[k], q[k], q[k + 1], r);
      assert Beside(q[k + 1], r);
    }
    if i: nat, r: nat :| i < |q| && Beside(q[i], r) {
      var k := WhoStrands(q, evs, i, r);
    }
  }

  lemma {:induction false} WhoStrands(q: seq<Scene>, evs: seq<Event>, i: nat, r: nat) returns (k: nat)
    requires Run(q, evs) && Begins(q[0]) && i < |q| && Beside(q[i], r)
    ensures StrandsAt(q, evs, k, r)
    decreases i
  {
    NotAtFirst(q[0], r);
    hide SceneInv, Happens, Beside, Strands, WriteGoes, SleepsToRead;
    RunKeeps(q, evs, i - 1);
    assert Happens(evs[i - 1], q[i - 1], q[i - 1 + 1]);
    LeftAsleep(evs[i - 1], q[i - 1], q[i], r);
    if WriteGoes(evs[i - 1], q[i - 1]) {
      k := i - 1;
    } else {
      k := WhoStrands(q, evs, i - 1, r);
    }
  }

  lemma NotAtFirst(x: Scene, r: nat)
    requires Begins(x)
    ensures !Beside(x, r)
  {
  }

  /** A reader and a writer are never asleep together, so neither waits for the other. */
  lemma NotBothAsleep(calls: seq<Call>, pending: map<nat, nat>, killed: set<nat>, l: Log, e: Ends, c: nat, d: nat)
    requires AllInv(calls, pending, killed, l, e)
    requires c < |calls| && d < |calls| && calls[c].WriteCall? && calls[c].st.Asleep? && calls[d].ReadCall?
    ensures !calls[d].st.Asleep?
  {
    hide CallsInv, WritesInv, ReadsInv, SomeStranded;
  }

  lemma NoneYet(calls: seq<Call>, pending: map<nat, nat>, killed: set<nat>, l: Log, e: Ends, c: nat)
    requires AllInv(calls, pending, killed, l, e) && c < |calls| && calls[c].ReadCall? && calls[c].st.Ready?
    ensures calls[c].got == []
  {
    hide CallsInv, WritesInv, ReadsInv, SleepInv, SomeStranded;
    GotNothing(calls, l.returned, l.delivered, c);
  }

  lemma StatusIs(w: Call, next: nat, readopen: bool, killed: set<nat>, r: Outcome)
    requires w.WriteCall? && next <= |w.addr|
    requires r == if next == |w.addr| then Returns(|w.addr|)
                  else if !readopen || w.p in killed then Returns(-1) else Sleeps
    ensures WriteStatus(w.(next := next), readopen, killed) == if r.Sleeps? then Asleep else Ended(r.r)
  {
  }

  lemma NextInAddr(calls: seq<Call>, accepted: seq<Byte>, from: seq<nat>, c: nat)
    requires WritesInv(calls, accepted, from) && c < |calls| && calls[c].WriteCall?
    ensures calls[c].next <= |calls[c].addr|
  {
    assert WriteOk(calls[c], Pick(accepted, from, c));
  }

  lemma PipeRoom(pipe: Pipe)
    requires pipe.Valid()
    ensures |pipe.delivered| <= |pipe.accepted| <= |pipe.delivered| + PIPESIZE
            && pipe.accepted[..|pipe.delivered|] == pipe.delivered
  {
  }
}
