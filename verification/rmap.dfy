/**
 The reverse map of cow.c: for every physical frame an array of NPROC page
 directories, packed to the left and padded with zeros.
*/
module Rmap {
  import opened Common

  /** A full list drops the newcomer without a word. */
  function AddHolder(q: seq<nat>, d: nat): seq<nat> {
    if d in q || |q| >= NPROC then q else q + [d]
  }

  function RemoveHolder(q: seq<nat>, d: nat): seq<nat> {
    if q == [] then []
    else if q[0] == d then q[1..]
    else [q[0]] + RemoveHolder(q[1..], d)
  }

  lemma {:induction false} RemoveAt(q: seq<nat>, d: nat, i: nat)
    requires i < |q| && q[i] == d && d !in q[..i]
    ensures RemoveHolder(q, d) == q[..i] + q[i + 1..]
  {
    if i > 0 {
      assert q[0] in q[..i];
      assert q[1..][..i - 1] == q[..i][1..];
      RemoveAt(q[1..], d, i - 1);
    }
  }

  lemma {:induction false} RemoveAbsent(q: seq<nat>, d: nat)
    requires d !in q
    ensures RemoveHolder(q, d) == q
  {
    if q != [] { RemoveAbsent(q[1..], d); }
  }

  /** Removing drops exactly d from a duplicate-free list and keeps the order. */
  lemma {:induction false} RemoveIsExact(q: seq<nat>, d: nat)
    requires Distinct(q)
    ensures Distinct(RemoveHolder(q, d))
    ensures forall x :: x in RemoveHolder(q, d) <==> x in q && x != d
    ensures |RemoveHolder(q, d)| == |q| - (if d in q then 1 else 0)
  {
    if d in q {
      var i :| 0 <= i < |q| && q[i] == d;
      assert forall j :: 0 <= j < |q| && j != i ==> q[j] != d;
      RemoveAt(q, d, i);
      assert q == q[..i] + [d] + q[i + 1..];
    } else {
      RemoveAbsent(q, d);
    }
  }

  class Rmap {
    const node: array2<nat>
    ghost var holders: seq<seq<nat>>

    ghost predicate Valid()
      reads this, node
    {
      && node.Length0 == |holders| && node.Length1 == NPROC
      && forall f :: 0 <= f < |holders| ==> RowIs(f, holders[f])
    }

    /** Row f is q, packed to the left. */
    ghost predicate RowIs(f: nat, q: seq<nat>)
      reads node
      requires f < node.Length0 && node.Length1 == NPROC
    {
      && |q| <= NPROC && 0 !in q
      && (forall j :: 0 <= j < |q| ==> node[f, j] == q[j])
      && (forall j :: |q| <= j < NPROC ==> node[f, j] == 0)
    }

    /** rmap_clean on every frame. */
    constructor (frames: nat)
      ensures Valid() && holders == seq(frames, _ => []) && fresh(node)
    {
      node := new nat[frames, NPROC]((i, j) => 0);
      holders := seq(frames, _ => []);
    }

    method Add(f: nat, d: nat)
      requires Valid() && f < |holders| && d != 0
      modifies this, node
      ensures Valid() && holders == old(holders)[f := AddHolder(old(holders)[f], d)]
    {
      ghost var q := holders[f];
      var i := 0;
      while i < NPROC
        invariant 0 <= i <= |q| && Valid() && holders == old(holders)
        invariant d !in q[..i]
      {
        if node[f, i] == d {
          assert i < |q| && q[i] == d;
          assert holders == old(holders)[f := AddHolder(q, d)];
          return;
        }
        assert i < |q| ==> q[i] in q && node[f, i] == q[i];
        if node[f, i] == 0 {
          assert q[..i] == q;
          node[f, i] := d;
          holders := holders[f := q + [d]];
          return;
        }
        assert i < |q|;
        i := i + 1;
      }
      assert q[..i] == q;
      assert holders == old(holders)[f := AddHolder(q, d)];
    }

    /** rmap_rm: shifts the entries after d one place to the left. */
    method Rm(f: nat, d: nat)
      requires Valid() && f < |holders| && d != 0
      modifies this, node
      ensures Valid() && holders == old(holders)[f := RemoveHolder(old(holders)[f], d)]
    {
      ghost var q := holders[f];
      var i := 0;
      while i < NPROC && node[f, i] != d
        invariant 0 <= i <= NPROC && d !in q[..if i < |q| then i else |q|]
      {
        i := i + 1;
      }
      if i < NPROC && node[f, i] == d {
        ghost var at := i;
        assert at < |q| && q[at] == d;
        node[f, i] := 0;
        i := i + 1;
        while i < NPROC
          invariant at + 1 <= i <= NPROC && holders == old(holders)
          invariant forall g, j :: 0 <= g < node.Length0 && 0 <= j < NPROC && g != f ==> node[g, j] == old(node[g, j])
          invariant forall j :: 0 <= j < at ==> node[f, j] == old(node[f, j])
          invariant forall j :: at <= j < i - 1 ==> node[f, j] == old(node[f, j + 1])
          invariant forall j :: i <= j < NPROC ==> node[f, j] == old(node[f, j])
        {
          node[f, i - 1] := node[f, i];
          i := i + 1;
        }
        node[f, i - 1] := 0;
        RemoveAt(q, d, at);
        holders := holders[f := RemoveHolder(q, d)];
        assert RowIs(f, holders[f]);
        assert forall g :: 0 <= g < |holders| && g != f ==> RowIs(g, old(holders)[g]);
      } else {
        assert q[..|q|] == q;
        RemoveAbsent(q, d);
        assert holders == old(holders)[f := RemoveHolder(q, d)];
      }
    }

    method GetCnt(f: nat) returns (cnt: nat)
      requires Valid() && f < |holders|
      ensures cnt == |holders[f]|
    {
      cnt := 0;
      var j := 0;
      while j < NPROC
        invariant 0 <= j <= NPROC && cnt == if j < |holders[f]| then j else |holders[f]|
      {
        assert RowIs(f, holders[f]);
        assert j < |holders[f]| ==> node[f, j] in holders[f];
        if node[f, j] != 0 { cnt := cnt + 1; }
        j := j + 1;
      }
    }
  }
}
