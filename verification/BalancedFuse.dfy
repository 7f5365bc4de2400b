/** The schedule of fuses that keeps the halves balanced (BM_ArenaFuseBalanced in
    src/benchmarks/benchmark.cc). */
module BalancedFuse {
  import opened Common

  /** Whether two labellings put the same positions together. */
  ghost predicate SamePartition(g: seq<int>, k: seq<int>) {
    |g| == |k| && forall a, b :: 0 <= a < |g| && 0 <= b < |g| ==> (g[a] == g[b] <==> k[a] == k[b])
  }

  /** The labelling after the groups of `x` and `y` become one. */
  function Merged(g: seq<int>, x: nat, y: nat): (r: seq<int>)
    requires x < |g| && y < |g|
    ensures |r| == |g|
  {
    seq(|g|, a requires 0 <= a < |g| => if g[a] == g[y] then g[x] else g[a])
  }

  lemma MergedAgree(g: seq<int>, k: seq<int>, x: nat, y: nat)
    requires SamePartition(g, k) && x < |g| && y < |g|
    ensures SamePartition(Merged(g, x, y), Merged(k, x, y))
  {
    forall a, b | 0 <= a < |g| && 0 <= b < |g|
      ensures Merged(g, x, y)[a] == Merged(g, x, y)[b] <==> Merged(k, x, y)[a] == Merged(k, x, y)[b]
    {
      assert g[a] == g[b] <==> k[a] == k[b];
      assert g[a] == g[y] <==> k[a] == k[y];
      assert g[b] == g[y] <==> k[b] == k[y];
      assert g[a] == g[x] <==> k[a] == k[x];
      assert g[b] == g[x] <==> k[b] == k[x];
    }
  }

  function Groups(g: seq<int>): set<int> {
    set a | 0 <= a < |g| :: g[a]
  }

  /** Joining two separate groups leaves exactly one group fewer. */
  lemma MergedCount(g: seq<int>, x: nat, y: nat)
    requires x < |g| && y < |g| && g[x] != g[y]
    ensures |Groups(Merged(g, x, y))| + 1 == |Groups(g)|
  {
    var r := Merged(g, x, y);
    forall v | v in Groups(g) - {g[y]} ensures v in Groups(r) {
      var a :| 0 <= a < |g| && g[a] == v;
      assert r[a] == v;
    }
    assert Groups(r) == Groups(g) - {g[y]};
  }

  /** The rounded-up base-two logarithm. */
  function CeilLog2(size: nat): (max: nat)
    requires size >= 1
    ensures size <= Pow2(max) && (max > 0 ==> Pow2(max - 1) < size)
  {
    if size == 1 then 0 else
      var half := CeilLog2((size + 1) / 2);
      assert half > 0 ==> 2 * Pow2(half - 1) < size;
      half + 1
  }

  /** Positions in aligned blocks: those before `i` in blocks of `2 * s`, which carry the number
      of their first half, the rest in blocks of `s`. */
  function Block(a: nat, i: nat, s: nat): int
    requires s > 0
  {
    if a < i then 2 * (a / (2 * s)) else a / s
  }

  function Blocks(size: nat, i: nat, s: nat): (r: seq<int>)
    requires s > 0
    ensures |r| == size
  {
    seq(size, a requires 0 <= a < size => Block(a, i, s))
  }

  /** Passing the pair of blocks at `i` turns the second's number into the first's. */
  lemma BlockStep(a: nat, m: nat, s: nat)
    requires s > 0
    ensures Block(a, 2 * m * s + 2 * s, s) ==
            if Block(a, 2 * m * s, s) == 2 * m + 1 then 2 * m else Block(a, 2 * m * s, s)
  {
    var i := 2 * m * s;
    assert m * (2 * s) == i && (2 * m) * s == i && (2 * m + 1) * s == i + s;
    if i <= a < i + 2 * s {
      DivUnique(a, 2 * s, m);
      if a < i + s { DivUnique(a, s, 2 * m); } else { DivUnique(a, s, 2 * m + 1); }
    } else if a >= i + 2 * s {
      DivAtLeast(a, s, 2 * m + 2);
    }
  }

  lemma BlocksStep(size: nat, m: nat, s: nat)
    requires s > 0 && 2 * m * s + s < size
    ensures Blocks(size, 2 * m * s + 2 * s, s) == Merged(Blocks(size, 2 * m * s, s), 2 * m * s, 2 * m * s + s)
    ensures Blocks(size, 2 * m * s, s)[2 * m * s] != Blocks(size, 2 * m * s, s)[2 * m * s + s]
  {
    var i := 2 * m * s;
    assert (2 * m) * s == i && (2 * m + 1) * s == i + s;
    DivUnique(i, s, 2 * m);
    DivUnique(i + s, s, 2 * m + 1);
    var l, r := Blocks(size, i + 2 * s, s), Merged(Blocks(size, i, s), i, i + s);
    forall a | 0 <= a < size ensures l[a] == r[a] {
      BlockStep(a, m, s);
    }
  }

  /** One fuse of a level: it joins two groups that were separate, and the labelling goes on
      agreeing with the blocks. */
  lemma FuseStep(g: seq<int>, m: nat, s: nat)
    requires s > 0 && 2 * m * s + s < |g|
    requires SamePartition(g, Blocks(|g|, 2 * m * s, s))
    ensures g[2 * m * s] != g[2 * m * s + s]
    ensures SamePartition(Merged(g, 2 * m * s, 2 * m * s + s), Blocks(|g|, 2 * (m + 1) * s, s))
    ensures |Groups(Merged(g, 2 * m * s, 2 * m * s + s))| + 1 == |Groups(g)|
    ensures 2 * (m + 1) * s == 2 * m * s + 2 * s
  {
    var i := 2 * m * s;
    assert 2 * (m + 1) * s == i + 2 * s;
    BlocksStep(|g|, m, s);
    MergedAgree(g, Blocks(|g|, i, s), i, i + s);
    MergedCount(g, i, i + s);
  }

  /** The positions a level leaves over are one short block, already one group. */
  lemma LastBlock(size: nat, m: nat, s: nat)
    requires s > 0 && size <= 2 * m * s + s
    ensures SamePartition(Blocks(size, 2 * m * s, s), Blocks(size, 0, 2 * s))
  {
    var i, t := 2 * m * s, 2 * s;
    assert m * t == i && (2 * m) * s == i;
    forall a | 0 <= a < size ensures Block(a, i, s) == 2 * Block(a, 0, t) {
      if a >= i {
        DivUnique(a, s, 2 * m);
        DivUnique(a, t, m);
      }
    }
  }

  /** Every arena in a group of its own. */
  function Separate(size: nat): seq<int> {
    seq(size, a => a)
  }

  class Arenas {
    /** Two arenas are in one fuse group when they carry the same label. */
    var group: seq<int>
    /** The number of fuses, and of those that joined two separate groups. */
    var calls: nat
    var joins: nat

    /** New arenas, each in its own group. */
    constructor (size: nat)
      ensures |group| == size && calls == joins == 0
      ensures SamePartition(group, Blocks(size, 0, 1)) && |Groups(group)| == size
    {
      group := Separate(size);
      calls, joins := 0, 0;
      new;
      SeparateCount(size);
    }

    method Fuse(a: nat, b: nat)
      requires a < |group| && b < |group|
      modifies this
      ensures group == Merged(old(group), a, b) && calls == old(calls) + 1
      ensures joins == old(joins) + if old(group[a]) != old(group[b]) then 1 else 0
    {
      if group[a] != group[b] { joins := joins + 1; }
      group := Merged(group, a, b);
      calls := calls + 1;
    }

    ghost predicate Counted()
      reads this
    {
      calls == joins && calls + |Groups(group)| == |group|
    }

    /** One level: every two neighbouring blocks of `step` become one, each fuse joining two
        groups that were separate. */
    method FuseLevel(step: nat)
      requires step > 0 && Counted() && SamePartition(group, Blocks(|group|, 0, step))
      modifies this
      ensures |group| == old(|group|) && Counted()
      ensures SamePartition(group, Blocks(|group|, 0, 2 * step))
    {
      var i := 0;
      ghost var m := 0;
      while i + step < |group|
        invariant i == 2 * m * step && |group| == old(|group|) && Counted()
        invariant SamePartition(group, Blocks(|group|, i, step))
        decreases |group| - i
      {
        FuseStep(group, m, step);
        Fuse(i, i + step);
        i := i + step * 2;
        m := m + 1;
      }
      LastBlock(|group|, m, step);
    }

    /** The schedule leaves all arenas in one group, by exactly one fuse fewer than there are
        arenas, every one of which joins two groups. */
    method FuseBalanced()
      requires |group| >= 1 && calls == joins == 0
      requires SamePartition(group, Blocks(|group|, 0, 1)) && |Groups(group)| == |group|
      modifies this
      ensures |group| == old(|group|)
      ensures forall a, b :: 0 <= a < |group| && 0 <= b < |group| ==> group[a] == group[b]
      ensures calls == joins == |group| - 1
    {
      var max := CeilLog2(|group|);
      var n := 0;
      while n <= max
        invariant 0 <= n <= max + 1 && |group| == old(|group|) && Counted()
        invariant SamePartition(group, Blocks(|group|, 0, Pow2(n)))
      {
        FuseLevel(Pow2(n));
        n := n + 1;
      }
      OneBlock(|group|, Pow2(n));
      forall a, b | 0 <= a < |group| && 0 <= b < |group| ensures group[a] == group[b] {
        assert Blocks(|group|, 0, Pow2(n))[a] == Blocks(|group|, 0, Pow2(n))[b];
      }
      assert Groups(group) == {group[0]};
    }
  }

  lemma OneBlock(size: nat, s: nat)
    requires s >= size >= 1
    ensures forall a :: 0 <= a < size ==> Blocks(size, 0, s)[a] == 0
  {
  }

  lemma SeparateCount(size: nat)
    ensures SamePartition(Separate(size), Blocks(size, 0, 1)) && |Groups(Separate(size))| == size
  {
    var g := Separate(size);
    if size > 0 {
      var h := Separate(size - 1);
      SeparateCount(size - 1);
      assert forall v :: 0 <= v < size ==> g[v] == v;
      assert forall v :: 0 <= v < size - 1 ==> h[v] == v;
      GroupsOfSeparate(g, size);
      GroupsOfSeparate(h, size - 1);
      assert Groups(g) == Groups(h) + {size - 1};
    }
  }

  lemma GroupsOfSeparate(g: seq<int>, size: nat)
    requires |g| == size && forall v :: 0 <= v < size ==> g[v] == v
    ensures forall v :: v in Groups(g) <==> 0 <= v < size
  {
    forall v | 0 <= v < size ensures v in Groups(g) { assert g[v] == v; }
  }
}
