/** Collecting the file descriptors of an import graph in dependency order
    (CollectFileDescriptors in src/benchmarks/benchmark.cc). */
module DescriptorGraph {

  type File = int

  /** The dependencies of each file, in order. */
  type Graph = map<File, seq<File>>

  ghost predicate Closed(g: Graph) {
    forall f, i :: f in g && 0 <= i < |g[f]| ==> g[f][i] in g
  }

  ghost predicate IsPath(g: Graph, p: seq<File>) {
    p != [] && forall i :: 0 <= i < |p| - 1 ==> p[i] in g && p[i + 1] in g[p[i]]
  }

  ghost predicate Reaches(g: Graph, a: File, b: File) {
    exists p :: IsPath(g, p) && p[0] == a && p[|p| - 1] == b
  }

  /** No file is reached from one of its own dependencies. */
  ghost predicate Acyclic(g: Graph) {
    forall f, d :: f in g && d in g[f] ==> !Reaches(g, d, f)
  }

  lemma ReachesSelf(g: Graph, a: File)
    ensures Reaches(g, a, a)
  {
    assert IsPath(g, [a]);
  }

  lemma ReachesStep(g: Graph, a: File, d: File, b: File)
    requires a in g && d in g[a] && Reaches(g, d, b)
    ensures Reaches(g, a, b)
  {
    var p :| IsPath(g, p) && p[0] == d && p[|p| - 1] == b;
    var q := [a] + p;
    forall i | 0 <= i < |q| - 1 ensures q[i] in g && q[i + 1] in g[q[i]] {
      if i > 0 { assert p[i - 1] in g && p[i] in g[p[i - 1]]; }
    }
    assert IsPath(g, q);
  }

  ghost predicate HoldsDependencies(g: Graph, s: set<File>) {
    forall f :: f in s && f in g ==> DependenciesIn(g, f, s)
  }

  ghost predicate DependenciesIn(g: Graph, f: File, s: set<File>)
    requires f in g
  {
    forall d :: d in g[f] ==> d in s
  }

  /** A set closed under dependencies contains the end of every path that starts in it. */
  lemma {:induction false} ClosedUnderReach(g: Graph, s: set<File>, p: seq<File>)
    requires IsPath(g, p) && p[0] in s
    requires HoldsDependencies(g, s)
    ensures p[|p| - 1] in s
  {
    if |p| > 1 {
      var q := p[1..];
      assert p[0] in g && p[1] in g[p[0]];
      assert DependenciesIn(g, p[0], s);
      forall i | 0 <= i < |q| - 1 ensures q[i] in g && q[i + 1] in g[q[i]] {
        assert p[i + 1] in g && p[i + 2] in g[p[i + 1]];
      }
      assert IsPath(g, q) && q[0] == p[1];
      ClosedUnderReach(g, s, q);
    }
  }

  /** The two variables the recursion shares: the files seen and the files emitted. */
  datatype Progress = Progress(seen: set<File>, order: seq<File>) {
    ghost predicate Valid(g: Graph) {
      && seen <= g.Keys && (forall f :: f in order ==> f in seen)
      && forall i, j :: 0 <= i < j < |order| ==> order[i] != order[j]
    }

    /** The files on the call stack: seen and not emitted yet. */
    ghost function Open(): set<File> {
      set f | f in seen && f !in order
    }
  }

  /** Every dependency of the file at position `j` has been seen, and is earlier, or in `open`,
      or reaches that file so that the two lie on a cycle. */
  ghost predicate DepsEarlier(g: Graph, p: Progress, j: int, open: set<File>) {
    0 <= j < |p.order| && p.order[j] in g &&
    forall d :: d in g[p.order[j]] ==>
      d in p.seen && (d in p.order[..j] || d in open || Reaches(g, d, p.order[j]))
  }

  /** The file at position `j` is new since `p`, reached from `root`, and in dependency order. */
  ghost predicate Placed(g: Graph, root: File, open: set<File>, p: Progress, q: Progress, j: int) {
    && 0 <= j < |q.order| && q.order[j] !in p.seen && Reaches(g, root, q.order[j])
    && DepsEarlier(g, q, j, open)
  }

  /** From `p` to `q` the output is extended by well-placed files; all files newly seen are
      emitted, save those in `pending`. */
  ghost predicate Grown(g: Graph, root: File, open: set<File>, pending: set<File>, p: Progress, q: Progress) {
    && p.order <= q.order && p.seen + pending <= q.seen
    && (forall f :: f in q.seen ==> f in p.seen || f in q.order || f in pending)
    && forall j :: |p.order| <= j < |q.order| ==> Placed(g, root, open, p, q, j)
  }

  lemma StaysPlaced(g: Graph, root: File, open: set<File>, p: Progress, q: Progress, r: Progress, j: int)
    requires Placed(g, root, open, p, q, j) && q.order <= r.order && q.seen <= r.seen
    ensures Placed(g, root, open, p, r, j)
  {
    assert r.order[..j] == q.order[..j];
  }

  /** A recursive call on a dependency extends what its caller has done so far. */
  lemma ThenDependency(g: Graph, file: File, dep: File, open: set<File>, p: Progress, q: Progress, r: Progress)
    requires file in g && dep in g[file]
    requires Grown(g, file, open, {file}, p, q) && Grown(g, dep, open + {file}, {}, q, r)
    ensures Grown(g, file, open, {file}, p, r)
  {
    forall j | |p.order| <= j < |r.order| ensures Placed(g, file, open, p, r, j) {
      if j < |q.order| {
        StaysPlaced(g, file, open, p, q, r, j);
      } else {
        assert Placed(g, dep, open + {file}, q, r, j);
        ReachesStep(g, file, dep, r.order[j]);
      }
    }
    forall f | f in r.seen ensures f in p.seen || f in r.order || f == file {
      if f in q.seen && f in q.order { assert f in r.order; }
    }
  }

  /** Emitting the file once its dependencies have been seen completes its call. */
  lemma ThenEmit(g: Graph, file: File, p: Progress, q: Progress)
    requires file in g && file !in p.seen
    requires Grown(g, file, p.Open(), {file}, p, q)
    requires forall d :: d in g[file] ==> d in q.seen
    ensures Grown(g, file, p.Open(), {}, p, q.(order := q.order + [file]))
  {
    var r := q.(order := q.order + [file]);
    forall j | |p.order| <= j < |r.order| ensures Placed(g, file, p.Open(), p, r, j) {
      if j < |q.order| {
        StaysPlaced(g, file, p.Open(), p, q, r, j);
      } else {
        ReachesSelf(g, file);
        assert r.order[..j] == q.order;
        forall d | d in g[file] ensures d in q.order || d in p.Open() || d == file {
          if d in p.order { assert d in q.order; }
        }
        assert DepsEarlier(g, r, j, p.Open());
      }
    }
  }

  // ----- the dependencies of a file are taken in turn

  ghost predicate FromOneOf(g: Graph, deps: seq<File>, f: File) {
    exists k :: 0 <= k < |deps| && Reaches(g, deps[k], f)
  }

  /** All that is new in `order` is reached from one of the dependencies `deps`. */
  ghost predicate OnlyFrom(g: Graph, deps: seq<File>, p: Progress, order: seq<File>) {
    forall j :: |p.order| <= j < |order| ==> FromOneOf(g, deps, order[j])
  }

  /** By position `c` dependency `i` has been emitted, or is open, and nothing has been that is not
      reached from it or a dependency before it. */
  ghost predicate DoneBy(g: Graph, file: File, i: int, p: Progress, q: Progress, c: int)
    requires file in g
  {
    && 0 <= i < |g[file]| && |p.order| <= c <= |q.order|
    && OnlyFrom(g, g[file][..i + 1], p, q.order[..c])
    && (g[file][i] in q.order[..c] || g[file][i] in p.Open() + {file})
  }

  ghost predicate HadTurn(g: Graph, file: File, i: int, p: Progress, q: Progress)
    requires file in g
  {
    exists c :: DoneBy(g, file, i, p, q, c)
  }

  ghost predicate InTurn(g: Graph, file: File, n: int, p: Progress, q: Progress)
    requires file in g
  {
    forall i :: 0 <= i < n ==> HadTurn(g, file, i, p, q)
  }

  lemma StaysInTurn(g: Graph, file: File, n: int, p: Progress, q: Progress, r: Progress)
    requires file in g && InTurn(g, file, n, p, q) && q.order <= r.order
    ensures InTurn(g, file, n, p, r)
  {
    forall i | 0 <= i < n ensures HadTurn(g, file, i, p, r) {
      assert HadTurn(g, file, i, p, q);
      var c :| DoneBy(g, file, i, p, q, c);
      assert r.order[..c] == q.order[..c];
      assert DoneBy(g, file, i, p, r, c);
    }
  }

  lemma NextTurn(g: Graph, file: File, i: nat, p: Progress, q: Progress, r: Progress)
    requires file in g && i < |g[file]| && p.order <= q.order
    requires InTurn(g, file, i, p, q) && OnlyFrom(g, g[file][..i], p, q.order)
    requires Grown(g, g[file][i], p.Open() + {file}, {}, q, r) && r.Open() == p.Open() + {file} && g[file][i] in r.seen
    ensures InTurn(g, file, i + 1, p, r) && OnlyFrom(g, g[file][..i + 1], p, r.order)
  {
    StaysInTurn(g, file, i, p, q, r);
    var deps := g[file][..i + 1];
    forall j | |p.order| <= j < |r.order| ensures FromOneOf(g, deps, r.order[j]) {
      if j < |q.order| {
        assert FromOneOf(g, g[file][..i], q.order[j]);
        var k :| 0 <= k < i && Reaches(g, g[file][..i][k], q.order[j]);
        assert deps[k] == g[file][..i][k];
      } else {
        assert Placed(g, g[file][i], p.Open() + {file}, q, r, j);
        assert deps[i] == g[file][i];
      }
    }
    assert r.order[..|r.order|] == r.order;
    assert g[file][i] in r.order || g[file][i] in r.Open();
    assert DoneBy(g, file, i, p, r, |r.order|);
  }

  function Descriptors(descriptor: File -> string, order: seq<File>): seq<string> {
    seq(|order|, i requires 0 <= i < |order| => descriptor(order[i]))
  }

  class Collector {
    const g: Graph
    const descriptor: File -> string
    var seen: set<File>
    var serialized: seq<string>
    ghost var order: seq<File>

    constructor (g: Graph, descriptor: File -> string)
      ensures this.g == g && this.descriptor == descriptor
      ensures Now() == Progress({}, []) && Valid()
    {
      this.g := g;
      this.descriptor := descriptor;
      seen, serialized, order := {}, [], [];
    }

    ghost function Now(): Progress
      reads this
    {
      Progress(seen, order)
    }

    ghost predicate Valid()
      reads this
    {
      Now().Valid(g) && serialized == Descriptors(descriptor, order)
    }

    /** Terminates on every graph, cyclic ones too. */
    method Collect(file: File)
      requires Valid() && Closed(g) && file in g
      modifies this
      ensures Valid() && file in seen && Now().Open() == old(Now().Open())
      ensures Grown(g, file, old(Now().Open()), {}, old(Now()), Now())
      ensures file !in old(seen) ==> InTurn(g, file, |g[file]|, old(Now()), Now())
      decreases g.Keys - seen
    {
      ghost var before, open := Now(), Now().Open();
      if file in seen { return; }
      seen := seen + {file};
      var i := 0;
      while i < |g[file]|
        invariant 0 <= i <= |g[file]| && Valid() && file !in order
        invariant Now().Open() == open + {file}
        invariant Grown(g, file, open, {file}, before, Now())
        invariant InTurn(g, file, i, before, Now()) && OnlyFrom(g, g[file][..i], before, order)
        invariant forall k :: 0 <= k < i ==> g[file][k] in seen
      {
        ghost var prior := Now();
        var dep := g[file][i];
        Collect(dep);
        ThenDependency(g, file, dep, open, before, prior, Now());
        NextTurn(g, file, i, before, prior, Now());
        StillOpen(file);
        i := i + 1;
      }
      ghost var visited := Now();
      ThenEmit(g, file, before, visited);
      Emit(file);
      StaysInTurn(g, file, |g[file]|, before, visited, Now());
    }

    lemma StillOpen(file: File)
      requires file in Now().Open()
      ensures file in seen && file !in order
    {
    }

    method Emit(file: File)
      requires Valid() && file in seen && file !in order
      modifies this
      ensures Valid() && Now() == old(Now()).(order := old(order) + [file])
      ensures Now().Open() == old(Now().Open()) - {file}
    {
      serialized := serialized + [descriptor(file)];
      order := order + [file];
    }
  }

  /** What a call started with nothing seen gives: each file the root reaches, once, and every
      dependency earlier or on a cycle with the file. */
  ghost predicate Collected(g: Graph, root: File, order: seq<File>) {
    && (forall i, j :: 0 <= i < j < |order| ==> order[i] != order[j])
    && (forall f :: f in order <==> Reaches(g, root, f))
    && forall j, d :: 0 <= j < |order| && order[j] in g && d in g[order[j]] ==>
         d in order[..j] || Reaches(g, d, order[j])
  }

  lemma GrownFromNothing(g: Graph, root: File, q: Progress)
    requires q.Valid(g) && root in q.seen && Grown(g, root, {}, {}, Progress({}, []), q)
    ensures Collected(g, root, q.order)
  {
    forall j | 0 <= j < |q.order| ensures DepsEarlier(g, q, j, {}) && Reaches(g, root, q.order[j]) {
      assert Placed(g, root, {}, Progress({}, []), q, j);
    }
    forall f | f in q.seen ensures f in g && f in q.order && DependenciesIn(g, f, q.seen) {
      var j :| 0 <= j < |q.order| && q.order[j] == f;
      assert DepsEarlier(g, q, j, {});
    }
    assert HoldsDependencies(g, q.seen);
    forall f | Reaches(g, root, f) ensures f in q.order {
      var p :| IsPath(g, p) && p[0] == root && p[|p| - 1] == f;
      ClosedUnderReach(g, q.seen, p);
    }
  }

  /** A dependency that is not emitted earlier reaches the file that needs it: on an acyclic
      graph there is none. */
  ghost predicate DependenciesFirst(g: Graph, order: seq<File>) {
    forall j, d :: 0 <= j < |order| && order[j] in g && d in g[order[j]] ==> d in order[..j]
  }

  /** What is emitted before a dependency of the root is reached from it or from an earlier one. */
  ghost predicate RootInTurn(g: Graph, root: File, order: seq<File>)
    requires root in g
  {
    forall i, m, n :: 0 <= i < |g[root]| && 0 <= m < n < |order| && order[n] == g[root][i] ==>
      FromOneOf(g, g[root][..i + 1], order[m])
  }

  lemma InTurnFromNothing(g: Graph, root: File, q: Progress)
    requires root in g && Collected(g, root, q.order) && InTurn(g, root, |g[root]|, Progress({}, []), q)
    ensures RootInTurn(g, root, q.order)
  {
    forall i, m, n | 0 <= i < |g[root]| && 0 <= m < n < |q.order| && q.order[n] == g[root][i]
      ensures FromOneOf(g, g[root][..i + 1], q.order[m])
    {
      var p := Progress({}, []);
      assert HadTurn(g, root, i, p, q);
      var c :| DoneBy(g, root, i, p, q, c);
      if g[root][i] in q.order[..c] {
        var k :| 0 <= k < c && q.order[..c][k] == g[root][i];
        assert q.order[k] == q.order[n];
        assert FromOneOf(g, g[root][..i + 1], q.order[..c][m]);
      } else {
        assert q.order[m] in q.order && g[root][..i + 1][i] == root;
      }
    }
  }

  /** The descriptors of the files the root reaches, in such an order. */
  ghost predicate SerializedInOrder(g: Graph, descriptor: File -> string, root: File, serialized: seq<string>)
    requires root in g
  {
    exists order :: Collected(g, root, order) && serialized == Descriptors(descriptor, order)
      && RootInTurn(g, root, order) && (Acyclic(g) ==> DependenciesFirst(g, order))
  }

  method CollectFileDescriptors(g: Graph, descriptor: File -> string, root: File) returns (serialized: seq<string>)
    requires Closed(g) && root in g
    ensures SerializedInOrder(g, descriptor, root, serialized)
  {
    var c := new Collector(g, descriptor);
    assert Progress({}, []).Open() == {};
    c.Collect(root);
    GrownFromNothing(g, root, c.Now());
    InTurnFromNothing(g, root, c.Now());
    serialized := c.serialized;
    assert Acyclic(g) ==> DependenciesFirst(g, c.order);
  }
}
