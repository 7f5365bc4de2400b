/** The failure-list trie as a value (src/conformance/failure_list_trie_node.cc):
    dotted names as sections, the search, the insertion, and the set of
    patterns that a trie stores. */
module TrieSpec {
  import opened Common

  // ----- Dotted names -----

  /** Position of the first dot, or the length of the name. */
  function FirstDot(name: string): (i: nat)
    ensures i <= |name| && (i < |name| ==> name[i] == '.') && '.' !in name[..i]
  {
    if name == "" || name[0] == '.' then 0 else
    var i := 1 + FirstDot(name[1..]);
    assert name[..i] == [name[0]] + name[1..][..i - 1];
    i
  }

  function Sections(name: string): (p: seq<string>)
    ensures |p| > 0 && forall s :: s in p ==> '.' !in s
    decreases |name|
  {
    var i := FirstDot(name);
    if i == |name| then assert name[..i] == name; [name] else [name[..i]] + Sections(name[i + 1..])
  }

  function Dotted(p: seq<string>): string {
    if p == [] then "" else if |p| == 1 then p[0] else p[0] + "." + Dotted(p[1..])
  }

  lemma {:induction false} DottedOfSections(name: string)
    ensures Dotted(Sections(name)) == name
    decreases |name|
  {
    var i := FirstDot(name);
    if i < |name| {
      DottedOfSections(name[i + 1..]);
      assert Sections(name)[1..] == Sections(name[i + 1..]);
      assert name == name[..i] + "." + name[i + 1..];
    }
  }

  /** Different names have different sections. */
  lemma SectionsInjective(a: string, b: string)
    requires Sections(a) == Sections(b)
    ensures a == b
  {
    DottedOfSections(a);
    DottedOfSections(b);
  }

  // ----- Unification -----

  predicate Unifies(a: string, b: string) {
    a == b || a == "*" || b == "*"
  }

  predicate UnifyAll(p: seq<string>, q: seq<string>) {
    |p| == |q| && forall i :: 0 <= i < |p| ==> Unifies(p[i], q[i])
  }

  /** A `*` must be a whole section. */
  predicate ValidSections(p: seq<string>) {
    forall s :: s in p ==> !('*' in s && |s| > 1)
  }

  predicate WildcardFree(q: seq<string>) {
    forall s :: s in q ==> s != "*"
  }

  // ----- The trie -----

  datatype Trie = Node(data: string, isTest: bool, children: seq<Trie>)

  /** WalkDownMatch: the first stored pattern, in child order, that unifies with `q`. */
  function Walk(cs: seq<Trie>, q: seq<string>): Option<seq<string>>
    requires |q| > 0
    decreases |q|, |cs|
  {
    if cs == [] then None
    else if !Unifies(cs[0].data, q[0]) then Walk(cs[1..], q)
    else if |q| == 1 then
      if cs[0].isTest then Some([cs[0].data]) else Walk(cs[1..], q)
    else
      match Walk(cs[0].children, q[1..])
      case Some(r) => Some([cs[0].data] + r)
      case None => Walk(cs[1..], q)
  }

  /** One turn of the loop over the children. */
  lemma WalkAt(cs: seq<Trie>, i: nat, q: seq<string>)
    requires |q| > 0 && i < |cs|
    ensures Walk(cs[i..], q) ==
      if !Unifies(cs[i].data, q[0]) then Walk(cs[i + 1..], q)
      else if |q| == 1 then if cs[i].isTest then Some([cs[i].data]) else Walk(cs[i + 1..], q)
      else match Walk(cs[i].children, q[1..]) case Some(r) => Some([cs[i].data] + r) case None => Walk(cs[i + 1..], q)
  {
    assert cs[i..][1..] == cs[i + 1..];
  }

  function Chain(q: seq<string>): Trie
    requires |q| > 0
    decreases |q|
  {
    if |q| == 1 then Node(q[0], true, []) else Node(q[0], false, [Chain(q[1..])])
  }

  /** InsertImpl: follow the child with the same text, or add one at the end. */
  function InsertInto(cs: seq<Trie>, q: seq<string>): seq<Trie>
    requires |q| > 0
    decreases |q|, |cs|
  {
    if cs == [] then [Chain(q)]
    else if cs[0].data != q[0] then [cs[0]] + InsertInto(cs[1..], q)
    else if |q| == 1 then [cs[0].(isTest := true)] + cs[1..]
    else [cs[0].(children := InsertInto(cs[0].children, q[1..]))] + cs[1..]
  }

  /** The child that InsertImpl stops at, changed, or a new one at the end. */
  function UpdatedChild(c: Trie, q: seq<string>): Trie
    requires |q| > 0
  {
    if |q| == 1 then c.(isTest := true) else c.(children := InsertInto(c.children, q[1..]))
  }

  lemma {:induction false} InsertAt(cs: seq<Trie>, i: nat, q: seq<string>)
    requires |q| > 0 && i <= |cs| && (i < |cs| ==> cs[i].data == q[0])
    requires forall j :: 0 <= j < i ==> cs[j].data != q[0]
    ensures InsertInto(cs, q) == if i < |cs| then cs[i := UpdatedChild(cs[i], q)] else cs + [Chain(q)]
    decreases i
  {
    if i > 0 { InsertAt(cs[1..], i - 1, q); }
  }

  /** Is `p` the path to a node that is marked as a test name? */
  predicate Stores(cs: seq<Trie>, p: seq<string>)
    decreases |p|, |cs|
  {
    p != [] && cs != [] && (StoresFirst(cs[0], p) || Stores(cs[1..], p))
  }

  predicate StoresFirst(c: Trie, p: seq<string>)
    requires p != []
    decreases |p|, 0
  {
    c.data == p[0] && if |p| == 1 then c.isTest else Stores(c.children, p[1..])
  }

  // ----- The search refines the set of patterns -----

  lemma {:induction false} WalkSound(cs: seq<Trie>, q: seq<string>)
    requires |q| > 0 && Walk(cs, q).Some?
    ensures Stores(cs, Walk(cs, q).value) && UnifyAll(Walk(cs, q).value, q)
    decreases |q|, |cs|
  {
    if Unifies(cs[0].data, q[0]) && |q| == 1 && cs[0].isTest {
    } else if Unifies(cs[0].data, q[0]) && |q| > 1 && Walk(cs[0].children, q[1..]).Some? {
      WalkSound(cs[0].children, q[1..]);
      var r := Walk(cs[0].children, q[1..]).value;
      assert ([cs[0].data] + r)[1..] == r;
      forall i | 0 <= i < |q| ensures Unifies(([cs[0].data] + r)[i], q[i]) {
        if i > 0 { assert Unifies(r[i - 1], q[1..][i - 1]); }
      }
    } else {
      WalkSound(cs[1..], q);
    }
  }

  /** No stored pattern is missed, however the search has to back out of literal and wildcard branches. */
  lemma {:induction false} WalkComplete(cs: seq<Trie>, q: seq<string>, p: seq<string>)
    requires |q| > 0 && Stores(cs, p) && UnifyAll(p, q)
    ensures Walk(cs, q).Some?
    decreases |q|, |cs|
  {
    if StoresFirst(cs[0], p) {
      assert Unifies(p[0], q[0]);
      if |q| > 1 {
        forall i | 0 <= i < |p[1..]| ensures Unifies(p[1..][i], q[1..][i]) { assert Unifies(p[i + 1], q[i + 1]); }
        WalkComplete(cs[0].children, q[1..], p[1..]);
      }
    } else {
      WalkComplete(cs[1..], q, p);
    }
  }

  /** WalkDownMatch answers iff some stored pattern unifies, and then with such a pattern. */
  lemma WalkExact(cs: seq<Trie>, q: seq<string>)
    requires |q| > 0
    ensures Walk(cs, q).Some? <==> exists p :: Stores(cs, p) && UnifyAll(p, q)
    ensures Walk(cs, q).Some? ==> Stores(cs, Walk(cs, q).value) && UnifyAll(Walk(cs, q).value, q)
  {
    if Walk(cs, q).Some? { WalkSound(cs, q); }
    if p :| Stores(cs, p) && UnifyAll(p, q) { WalkComplete(cs, q, p); }
  }

  /** Earlier children come first: a later one is asked only when they have no answer. */
  lemma {:induction false} WalkInOrder(cs: seq<Trie>, ds: seq<Trie>, q: seq<string>)
    requires |q| > 0
    ensures Walk(cs + ds, q) == if Walk(cs, q).Some? then Walk(cs, q) else Walk(ds, q)
    decreases |cs|
  {
    if cs == [] {
      assert cs + ds == ds;
    } else {
      assert (cs + ds)[1..] == cs[1..] + ds && (cs + ds)[0] == cs[0];
      WalkInOrder(cs[1..], ds, q);
    }
  }

  // ----- Insertion adds exactly one pattern -----

  lemma {:induction false} ChainStores(q: seq<string>, p: seq<string>)
    requires |q| > 0 && p != []
    ensures StoresFirst(Chain(q), p) <==> p == q
    decreases |q|
  {
    if |q| == 1 {
      assert |p| == 1 && p[0] == q[0] ==> p == q;
    } else {
      assert q == [q[0]] + q[1..] && p == [p[0]] + p[1..];
      if |p| > 1 {
        ChainStores(q[1..], p[1..]);
        var cs := [Chain(q[1..])];
        assert Stores(cs, p[1..]) <==> StoresFirst(cs[0], p[1..]) || Stores(cs[1..], p[1..]);
        assert cs[1..] == [];
      }
    }
  }

  lemma {:induction false} InsertStores(cs: seq<Trie>, q: seq<string>, p: seq<string>)
    requires |q| > 0
    ensures Stores(InsertInto(cs, q), p) <==> p == q || Stores(cs, p)
    decreases |q|, |cs|
  {
    var ds := InsertInto(cs, q);
    if p == [] {
    } else if cs == [] {
      ChainStores(q, p);
      assert ds[1..] == [];
    } else if cs[0].data != q[0] {
      assert ds[0] == cs[0] && ds[1..] == InsertInto(cs[1..], q);
      InsertStores(cs[1..], q, p);
    } else {
      assert ds[1..] == cs[1..];
      assert q == [q[0]] + q[1..] && p == [p[0]] + p[1..];
      if |q| > 1 { InsertStores(cs[0].children, q[1..], p[1..]); }
      assert StoresFirst(ds[0], p) <==> p == q || StoresFirst(cs[0], p);
    }
  }

  // ----- Shape -----

  /** A test name at the node or below it. */
  predicate Bears(c: Trie) {
    c.isTest || exists i :: 0 <= i < |c.children| && Bears(c.children[i])
  }

  ghost predicate Distinct(cs: seq<Trie>) {
    forall i, j :: 0 <= i < j < |cs| ==> cs[i].data != cs[j].data
  }

  /** Siblings have different texts, and no node is useless. */
  ghost predicate WellFormed(cs: seq<Trie>) {
    && Distinct(cs)
    && forall i :: 0 <= i < |cs| ==> Bears(cs[i]) && WellFormed(cs[i].children)
  }

  lemma {:induction false} ChainWellFormed(q: seq<string>)
    requires |q| > 0
    ensures Bears(Chain(q)) && WellFormed(Chain(q).children)
    decreases |q|
  {
    if |q| > 1 {
      ChainWellFormed(q[1..]);
      assert Bears(Chain(q).children[0]);
    }
  }

  /** Every text after an insertion is the first section or was there before. */
  lemma {:induction false} InsertTexts(cs: seq<Trie>, q: seq<string>, j: nat)
    requires |q| > 0 && j < |InsertInto(cs, q)|
    ensures InsertInto(cs, q)[j].data == q[0] || exists i :: 0 <= i < |cs| && cs[i].data == InsertInto(cs, q)[j].data
    decreases |cs|
  {
    if cs != [] && cs[0].data != q[0] && j > 0 {
      InsertTexts(cs[1..], q, j - 1);
      if InsertInto(cs, q)[j].data != q[0] {
        var i :| 0 <= i < |cs[1..]| && cs[1..][i].data == InsertInto(cs, q)[j].data;
        assert cs[i + 1].data == InsertInto(cs, q)[j].data;
      }
    } else if cs != [] && cs[0].data == q[0] && j > 0 {
      assert cs[j].data == InsertInto(cs, q)[j].data;
    }
  }

  lemma {:induction false} InsertWellFormed(cs: seq<Trie>, q: seq<string>)
    requires |q| > 0 && WellFormed(cs)
    ensures WellFormed(InsertInto(cs, q)) && InsertInto(cs, q) != []
    decreases |q|, |cs|
  {
    var ds := InsertInto(cs, q);
    if cs == [] {
      ChainWellFormed(q);
    } else if cs[0].data != q[0] {
      var es := InsertInto(cs[1..], q);
      InsertWellFormed(cs[1..], q);
      forall j | 0 <= j < |es| ensures es[j].data != cs[0].data {
        InsertTexts(cs[1..], q, j);
      }
      assert ds == [cs[0]] + es;
    } else {
      if |q| > 1 {
        InsertWellFormed(cs[0].children, q[1..]);
        assert Bears(ds[0].children[0]);
      }
      assert forall i :: 1 <= i < |cs| ==> ds[i] == cs[i];
    }
  }

  /** In a well-formed trie each node lies on the path of a stored pattern. */
  lemma {:induction false} BearsStores(c: Trie) returns (p: seq<string>)
    requires Bears(c)
    ensures p != [] && StoresFirst(c, p)
    decreases c
  {
    if c.isTest {
      p := [c.data];
    } else {
      var i :| 0 <= i < |c.children| && Bears(c.children[i]);
      var r := BearsStores(c.children[i]);
      StoresMember(c.children, i, r);
      p := [c.data] + r;
      assert p[1..] == r;
    }
  }

  lemma {:induction false} StoresMember(cs: seq<Trie>, i: nat, p: seq<string>)
    requires i < |cs| && p != [] && StoresFirst(cs[i], p)
    ensures Stores(cs, p)
    decreases i
  {
    if i > 0 { StoresMember(cs[1..], i - 1, p); }
  }

  // ----- Insert -----

  datatype Status = Ok | AlreadyExists(found: string) | InvalidArgument

  /** Insert: refuse a name that unifies with a stored pattern or has a partial wildcard. */
  function InsertStatus(cs: seq<Trie>, name: string): Status {
    match Walk(cs, Sections(name))
    case Some(p) => AlreadyExists(Dotted(p))
    case None => if ValidSections(Sections(name)) then Ok else InvalidArgument
  }

  function Inserted(cs: seq<Trie>, name: string): seq<Trie> {
    if InsertStatus(cs, name).Ok? then InsertInto(cs, Sections(name)) else cs
  }

  /** No two stored patterns unify, and every stored wildcard is a whole section. */
  ghost predicate Unambiguous(cs: seq<Trie>) {
    && (forall p, q :: Stores(cs, p) && Stores(cs, q) && UnifyAll(p, q) ==> p == q)
    && (forall p :: Stores(cs, p) ==> ValidSections(p))
  }

  lemma UnifySymmetric(p: seq<string>, q: seq<string>)
    requires UnifyAll(p, q)
    ensures UnifyAll(q, p)
  {
    forall i | 0 <= i < |q| ensures Unifies(q[i], p[i]) { assert Unifies(p[i], q[i]); }
  }

  /** What Insert does to the set of patterns. */
  lemma InsertExact(cs: seq<Trie>, name: string)
    ensures InsertStatus(cs, name).AlreadyExists? <==> exists p :: Stores(cs, p) && UnifyAll(p, Sections(name))
    ensures InsertStatus(cs, name).AlreadyExists? ==>
      exists p :: Stores(cs, p) && UnifyAll(p, Sections(name)) && InsertStatus(cs, name).found == Dotted(p)
    ensures InsertStatus(cs, name).InvalidArgument? <==>
      (forall p :: Stores(cs, p) ==> !UnifyAll(p, Sections(name))) && !ValidSections(Sections(name))
    ensures InsertStatus(cs, name).Ok? ==>
      forall p :: Stores(Inserted(cs, name), p) <==> p == Sections(name) || Stores(cs, p)
    ensures !InsertStatus(cs, name).Ok? ==> Inserted(cs, name) == cs
  {
    WalkExact(cs, Sections(name));
    forall p ensures Stores(InsertInto(cs, Sections(name)), p) <==> p == Sections(name) || Stores(cs, p) {
      InsertStores(cs, Sections(name), p);
    }
  }

  lemma InsertKeeps(cs: seq<Trie>, name: string)
    requires WellFormed(cs) && Unambiguous(cs)
    ensures WellFormed(Inserted(cs, name)) && Unambiguous(Inserted(cs, name))
  {
    InsertExact(cs, name);
    if InsertStatus(cs, name).Ok? {
      var ds, n := Inserted(cs, name), Sections(name);
      InsertWellFormed(cs, n);
      forall p, q | Stores(ds, p) && Stores(ds, q) && UnifyAll(p, q) ensures p == q { UnifySymmetric(p, q); }
    }
  }

  // ----- Whole runs -----

  /** The children of the root after a sequence of Insert calls on a new trie. */
  function AfterInserts(names: seq<string>): seq<Trie> {
    if names == [] then [] else Inserted(AfterInserts(names[..|names| - 1]), names[|names| - 1])
  }

  lemma {:induction false} RunsKeep(names: seq<string>)
    ensures WellFormed(AfterInserts(names)) && Unambiguous(AfterInserts(names))
  {
    if names != [] {
      RunsKeep(names[..|names| - 1]);
      InsertKeeps(AfterInserts(names[..|names| - 1]), names[|names| - 1]);
    }
  }

  /** The i-th call inserted the pattern `p`. */
  ghost predicate Accepted(names: seq<string>, i: nat, p: seq<string>) {
    i < |names| && p == Sections(names[i]) && InsertStatus(AfterInserts(names[..i]), names[i]).Ok?
  }

  lemma AcceptedPrefix(names: seq<string>, k: nat, i: nat, p: seq<string>)
    requires i < k <= |names|
    ensures Accepted(names[..k], i, p) <==> Accepted(names, i, p)
  {
    assert names[..k][..i] == names[..i];
  }

  /** What is stored is what was inserted and accepted. */
  lemma {:induction false} StoredWasInserted(names: seq<string>, p: seq<string>)
    ensures Stores(AfterInserts(names), p) <==> exists i :: Accepted(names, i, p)
  {
    if names != [] {
      var k, before := |names| - 1, names[..|names| - 1];
      StoredWasInserted(before, p);
      InsertExact(AfterInserts(before), names[k]);
      forall i: nat | i < k ensures Accepted(before, i, p) <==> Accepted(names, i, p) { AcceptedPrefix(names, k, i, p); }
      assert Accepted(names, k, p) <==> p == Sections(names[k]) && InsertStatus(AfterInserts(before), names[k]).Ok?;
    }
  }

  /** A name without wildcards unifies with at most one stored pattern. */
  lemma AtMostOneMatch(cs: seq<Trie>, q: seq<string>, p: seq<string>, r: seq<string>)
    requires Unambiguous(cs) && WildcardFree(q)
    requires Stores(cs, p) && UnifyAll(p, q) && Stores(cs, r) && UnifyAll(r, q)
    ensures p == r
  {
    forall i | 0 <= i < |p| ensures Unifies(p[i], r[i]) {
      assert Unifies(p[i], q[i]) && Unifies(r[i], q[i]) && q[i] in q;
    }
  }

  // ----- Order of insertion -----

  ghost predicate SameStored(names: seq<string>, names': seq<string>) {
    forall p :: Stores(AfterInserts(names), p) <==> Stores(AfterInserts(names'), p)
  }

  /** No two stored patterns unify with the query. */
  ghost predicate OneMatch(cs: seq<Trie>, q: seq<string>) {
    forall p, r :: Stores(cs, p) && UnifyAll(p, q) && Stores(cs, r) && UnifyAll(r, q) ==> p == r
  }

  lemma SameAnswer(names: seq<string>, names': seq<string>, q: seq<string>)
    requires |q| > 0 && SameStored(names, names') && OneMatch(AfterInserts(names), q)
    ensures Walk(AfterInserts(names'), q) == Walk(AfterInserts(names), q)
  {
    WalkExact(AfterInserts(names), q);
    WalkExact(AfterInserts(names'), q);
  }

  /** `p` is the path of first children, and is stored. */
  predicate Leftmost(cs: seq<Trie>, p: seq<string>)
    requires |p| > 0
    decreases |p|
  {
    cs != [] && cs[0].data == p[0] && if |p| == 1 then cs[0].isTest else Leftmost(cs[0].children, p[1..])
  }

  lemma {:induction false} ChainLeftmost(p: seq<string>)
    requires |p| > 0
    ensures Leftmost([Chain(p)], p)
  {
    if |p| > 1 { ChainLeftmost(p[1..]); }
  }

  lemma {:induction false} InsertLeftmost(cs: seq<Trie>, q: seq<string>, p: seq<string>)
    requires |q| > 0 && |p| > 0 && Leftmost(cs, p)
    ensures Leftmost(InsertInto(cs, q), p)
    decreases |p|
  {
    if cs[0].data == q[0] && |q| > 1 && |p| > 1 { InsertLeftmost(cs[0].children, q[1..], p[1..]); }
  }

  /** The search tries the first children first. */
  lemma {:induction false} WalkLeftmost(cs: seq<Trie>, q: seq<string>, p: seq<string>)
    requires |p| > 0 && Leftmost(cs, p) && UnifyAll(p, q)
    ensures Walk(cs, q) == Some(p)
    decreases |p|
  {
    assert Unifies(p[0], q[0]);
    if |p| == 1 {
      assert p == [p[0]];
    } else {
      forall i | 0 <= i < |p[1..]| ensures Unifies(p[1..][i], q[1..][i]) { assert Unifies(p[i + 1], q[i + 1]); }
      WalkLeftmost(cs[0].children, q[1..], p[1..]);
      assert p == [p[0]] + p[1..];
    }
  }

  /** The pattern that is inserted first stays the path of first children. */
  lemma {:induction false} FirstStaysLeftmost(name: string, names: seq<string>)
    requires ValidSections(Sections(name))
    ensures Leftmost(AfterInserts([name] + names), Sections(name))
  {
    var all := [name] + names;
    if names == [] {
      var none: seq<Trie> := AfterInserts([]);
      assert all[..0] == [] && Walk(none, Sections(name)).None?;
      assert AfterInserts(all) == Inserted(none, name) == [Chain(Sections(name))];
      ChainLeftmost(Sections(name));
    } else {
      var before := names[..|names| - 1];
      FirstStaysLeftmost(name, before);
      assert all[..|all| - 1] == [name] + before;
      InsertLeftmost(AfterInserts([name] + before), Sections(names[|names| - 1]), Sections(name));
    }
  }

  lemma PrefixStores(names: seq<string>, k: nat, p: seq<string>)
    requires k <= |names| && Stores(AfterInserts(names[..k]), p)
    ensures Stores(AfterInserts(names), p)
  {
    StoredWasInserted(names[..k], p);
    var i: nat :| Accepted(names[..k], i, p);
    AcceptedPrefix(names, k, i, p);
    StoredWasInserted(names, p);
  }

  /** `ds` stores what `cs` stores, and `p`. */
  ghost predicate StoresToo(ds: seq<Trie>, cs: seq<Trie>, p: seq<string>) {
    forall x :: Stores(ds, x) <==> x == p || Stores(cs, x)
  }

  /** Then a call is accepted for `ds` as for `cs`, unless it inserts `p` itself. */
  lemma SameStatus(ds: seq<Trie>, cs: seq<Trie>, p: seq<string>, n: string)
    requires StoresToo(ds, cs, p)
    requires InsertStatus(cs, n).Ok? && UnifyAll(p, Sections(n)) ==> p == Sections(n)
    ensures InsertStatus(ds, n).Ok? <==> InsertStatus(cs, n).Ok? && Sections(n) != p
    ensures StoresToo(Inserted(ds, n), Inserted(cs, n), p)
  {
    InsertExact(cs, n);
    InsertExact(ds, n);
    UnifySelf(p);
  }

  /** Inserting a name of the final set before all others adds it, and else changes nothing, at
      every point of the run. */
  lemma {:induction false} FrontInsert(name: string, names: seq<string>, k: nat)
    requires k <= |names| && Stores(AfterInserts(names), Sections(name))
    ensures StoresToo(AfterInserts([name] + names[..k]), AfterInserts(names[..k]), Sections(name))
  {
    if k == 0 {
      RunsKeep(names);
      OneInsert(name);
      assert [name] + names[..0] == [name] && names[..0] == [];
    } else {
      var n, before := names[k - 1], names[..k - 1];
      FrontInsert(name, names, k - 1);
      AcceptedNames(name, names, k);
      SameStatus(AfterInserts([name] + before), AfterInserts(before), Sections(name), n);
      LastOfPrefix(name, names, k);
      AfterOneMore(before, n);
      AfterOneMore([name] + before, n);
    }
  }

  lemma LastOfPrefix(name: string, names: seq<string>, k: nat)
    requires 0 < k <= |names|
    ensures names[..k] == names[..k - 1] + [names[k - 1]]
    ensures [name] + names[..k] == ([name] + names[..k - 1]) + [names[k - 1]]
  {
    assert names[..k] == names[..k - 1] + [names[k - 1]];
    Regroup([name], names[..k - 1], [names[k - 1]]);
  }

  lemma AfterOneMore(names: seq<string>, n: string)
    ensures AfterInserts(names + [n]) == Inserted(AfterInserts(names), n)
  {
    assert (names + [n])[..|names|] == names;
  }

  lemma OneInsert(name: string)
    requires ValidSections(Sections(name))
    ensures StoresToo(AfterInserts([name]), AfterInserts([]), Sections(name))
  {
    var none: seq<Trie> := AfterInserts([]);
    assert [name][..0] == [] && Walk(none, Sections(name)).None?;
    InsertExact(none, name);
  }

  /** A name that is accepted unifies with no other name of the final set. */
  lemma AcceptedNames(name: string, names: seq<string>, k: nat)
    requires 0 < k <= |names| && Stores(AfterInserts(names), Sections(name))
    ensures var n := Sections(names[k - 1]);
      InsertStatus(AfterInserts(names[..k - 1]), names[k - 1]).Ok? && UnifyAll(Sections(name), n) ==> Sections(name) == n
  {
    var cs, n := AfterInserts(names[..k - 1]), names[k - 1];
    if InsertStatus(cs, n).Ok? {
      InsertExact(cs, n);
      assert names[..k][..k - 1] == names[..k - 1];
      PrefixStores(names, k, Sections(n));
      RunsKeep(names);
    }
  }

  lemma UnifySelf(p: seq<string>)
    ensures UnifyAll(p, p)
  {
  }

  /** A stored pattern that matches is the answer of some order that stores the same patterns. */
  lemma AnswerOfSomeOrder(names: seq<string>, q: seq<string>, p: seq<string>) returns (names': seq<string>)
    requires Stores(AfterInserts(names), p) && UnifyAll(p, q)
    ensures SameStored(names, names') && Walk(AfterInserts(names'), q) == Some(p)
  {
    StoredWasInserted(names, p);
    var i: nat :| Accepted(names, i, p);
    names' := [names[i]] + names;
    RunsKeep(names);
    FirstStaysLeftmost(names[i], names);
    WalkLeftmost(AfterInserts(names'), q, p);
    FrontInsert(names[i], names, |names|);
    assert names[..|names|] == names;
  }

  /** Every order that stores the same patterns answers a query alike exactly when at most one of
      them unifies with it. */
  lemma OrderIrrelevantExactly(names: seq<string>, q: seq<string>)
    requires |q| > 0
    ensures (forall names' :: SameStored(names, names') ==>
              Walk(AfterInserts(names'), q) == Walk(AfterInserts(names), q))
            <==> OneMatch(AfterInserts(names), q)
  {
    var cs := AfterInserts(names);
    if OneMatch(cs, q) {
      forall names' | SameStored(names, names')
        ensures Walk(AfterInserts(names'), q) == Walk(AfterInserts(names), q)
      {
        SameAnswer(names, names', q);
      }
    } else {
      var p, r :| Stores(cs, p) && UnifyAll(p, q) && Stores(cs, r) && UnifyAll(r, q) && p != r;
      var a := AnswerOfSomeOrder(names, q, p);
      var b := AnswerOfSomeOrder(names, q, r);
      assert SameStored(names, a) && SameStored(names, b);
    }
  }

  /** In particular a query without wildcards is answered alike in every order. */
  lemma OrderDoesNotMatter(names: seq<string>, names': seq<string>, query: string)
    requires SameStored(names, names') && WildcardFree(Sections(query))
    ensures Walk(AfterInserts(names), Sections(query)) == Walk(AfterInserts(names'), Sections(query))
  {
    var cs, q := AfterInserts(names), Sections(query);
    RunsKeep(names);
    forall p, r | Stores(cs, p) && UnifyAll(p, q) && Stores(cs, r) && UnifyAll(r, q) ensures p == r {
      AtMostOneMatch(cs, q, p, r);
    }
    OrderIrrelevantExactly(names, q);
  }

  /** For a query with a wildcard the order can matter. */
  lemma OrderMattersForWildcards()
    ensures SameStored(["a", "b"], ["b", "a"])
    ensures Walk(AfterInserts(["a", "b"]), Sections("*")) == Some(["a"])
    ensures Walk(AfterInserts(["b", "a"]), Sections("*")) == Some(["b"])
  {
    TwoInserts("a", "b");
    TwoInserts("b", "a");
    assert Sections("*") == ["*"];
  }

  lemma TwoInserts(a: string, b: string)
    requires a != b && |a| == |b| == 1 && a[0] != '.' && b[0] != '.' && a != "*" && b != "*"
    ensures AfterInserts([a, b]) == [Node(a, true, []), Node(b, true, [])]
    ensures forall p :: Stores(AfterInserts([a, b]), p) <==> p == [a] || p == [b]
  {
    assert Sections(a) == [a] && Sections(b) == [b];
    var none: seq<Trie> := AfterInserts([]);
    assert [a][..0] == [];
    assert AfterInserts([a]) == Inserted(none, a) == [Node(a, true, [])];
    var cs := AfterInserts([a]);
    assert [a, b][..1] == [a];
    assert Walk(cs[1..], [b]).None?;
    assert Walk(cs, [b]).None?;
    assert AfterInserts([a, b]) == Inserted(cs, b);
    assert InsertInto(cs[1..], [b]) == [Node(b, true, [])];
    assert AfterInserts([a, b]) == [cs[0]] + [Node(b, true, [])];
    forall p ensures Stores(AfterInserts([a, b]), p) <==> p == [a] || p == [b] {
      InsertStores(none, [a], p);
      InsertStores(cs, [b], p);
    }
  }
}
