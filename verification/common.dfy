/**
 What several parts of the kernel share: the limits of param.h, 32-bit addition,
 and facts about lists and sets.
*/
module Common {
  const NPROC: nat := 64
  const MAXOPBLOCKS: nat := 10
  const LOGSIZE: nat := MAXOPBLOCKS * 3
  const NBUF: nat := MAXOPBLOCKS * 3

  const WRAP: nat := 0x1_0000_0000

  /** Unsigned 32-bit addition. */
  function Add32(a: nat, b: nat): nat {
    (a + b) % WRAP
  }

  ghost predicate Distinct(q: seq<nat>) {
    forall i, j :: 0 <= i < j < |q| ==> q[i] != q[j]
  }

  lemma {:induction false} SubsetSize(a: set<nat>, b: set<nat>)
    requires a <= b
    ensures |a| <= |b|
  {
    if x :| x in a { SubsetSize(a - {x}, b - {x}); }
  }

  /** lo up to hi, without hi. */
  function Range(lo: nat, hi: nat): set<nat>
    decreases hi
  {
    if hi <= lo then {} else Range(lo, hi - 1) + {hi - 1}
  }

  lemma {:induction false} RangeIs(lo: nat, hi: nat)
    ensures forall u: nat :: u in Range(lo, hi) <==> lo <= u < hi
    decreases hi
  {
    if lo < hi { RangeIs(lo, hi - 1); }
  }

  lemma {:induction false} RangeSize(lo: nat, hi: nat)
    requires lo <= hi
    ensures |Range(lo, hi)| == hi - lo
    decreases hi
  {
    if lo < hi {
      RangeSize(lo, hi - 1);
      RangeIs(lo, hi - 1);
    }
  }

  // ---------- sizes of sets ----------

  ghost predicate OneToOne<T(!new), U>(s: set<T>, f: map<T, U>, t: set<U>) {
    && (forall x :: x in s ==> x in f && f[x] in t)
    && (forall x, y :: x in s && y in s && f[x] == f[y] ==> x == y)
  }

  lemma {:induction false} OneToOneSize<T(!new), U>(s: set<T>, f: map<T, U>, t: set<U>)
    requires OneToOne(s, f, t)
    ensures |s| <= |t|
  {
    if x :| x in s {
      OneToOneSize(s - {x}, f, t - {f[x]});
    }
  }

  /** A one-to-one map onto no more than it comes from reaches everything. */
  lemma OneToOneOnto<T(!new), U>(s: set<T>, f: map<T, U>, t: set<U>, y: U) returns (x: T)
    requires OneToOne(s, f, t) && |s| == |t| && y in t
    ensures x in s && x in f && f[x] == y
  {
    if z :| z in s && f[z] == y {
      x := z;
    } else {
      OneToOneSize(s, f, t - {y});
      assert false;
    }
  }

  function Pairs(a: set<nat>, n: nat): set<(nat, nat)> {
    set d, i | d in a && i in Range(0, n) :: (d, i)
  }

  lemma {:induction false} PairsSize(a: set<nat>, n: nat)
    ensures |Pairs(a, n)| == |a| * n
  {
    if d :| d in a {
      PairsSize(a - {d}, n);
      PairsOfOne(d, n);
      PairsSplit(a, d, n);
      MoreByOne(|a - {d}|, n);
    } else {
      assert Pairs(a, n) == {};
    }
  }

  lemma MoreByOne(k: nat, n: nat)
    ensures (k + 1) * n == k * n + n
  {
  }

  lemma PairsSplit(a: set<nat>, d: nat, n: nat)
    requires d in a
    ensures |a| == |a - {d}| + 1 && |Pairs(a, n)| == |Pairs(a - {d}, n)| + |Pairs({d}, n)|
  {
    hide Range;
    assert Pairs(a, n) == Pairs(a - {d}, n) + Pairs({d}, n) && Pairs(a - {d}, n) !! Pairs({d}, n);
  }

  lemma PairsOfOne(d: nat, n: nat)
    ensures |Pairs({d}, n)| == n
  {
    RangeSize(0, n);
    OneToOneSize(Pairs({d}, n), map x | x in Pairs({d}, n) :: x.1, Range(0, n));
    OneToOneSize(Range(0, n), map i | i in Range(0, n) :: (d, i), Pairs({d}, n));
  }

  /** What is placed at different places, n for each of a, is no more than those. */
  lemma PlacedCount(f: map<nat, (nat, nat)>, a: set<nat>, n: nat)
    requires forall x :: x in f ==> f[x].0 in a && f[x].1 < n
    requires forall x, y :: x in f && y in f && f[x] == f[y] ==> x == y
    ensures |f| <= |a| * n
  {
    RangeIs(0, n);
    hide Range;
    OneToOneSize(f.Keys, f, Pairs(a, n));
    PairsSize(a, n);
  }
}
