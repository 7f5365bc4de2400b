/** The failure-list trie as linked nodes that insertion changes in place
    (src/conformance/failure_list_trie_node.h). */
module FailureListTrie {
  import opened Common
  import opened TrieSpec

  class FailureListTrieNode {
    var data: string
    var children: seq<FailureListTrieNode>
    var isTestName: bool
    ghost var model: Trie
    ghost var Repr: set<object>

    ghost predicate Valid()
      reads this, Repr
    {
      && this in Repr
      && (forall i :: 0 <= i < |children| ==>
            && children[i] in Repr && children[i].Repr <= Repr && this !in children[i].Repr
            && children[i].Valid())
      && (forall i, j :: 0 <= i < j < |children| ==> children[i].Repr !! children[j].Repr)
      && model.data == data && model.isTest == isTestName && |model.children| == |children|
      && (forall i :: 0 <= i < |children| ==> model.children[i] == children[i].model)
    }

    /** The root's `is_test_name_` is never initialised, and never read. */
    constructor (text: string, mark: bool)
      ensures Valid() && fresh(Repr) && model == Node(text, mark, [])
    {
      data := text;
      children := [];
      isTestName := mark;
      model := Node(text, mark, []);
      Repr := {this};
    }

    method WalkDownMatch(name: string) returns (r: Option<string>)
      requires Valid()
      ensures r == match Walk(model.children, Sections(name)) case None => None case Some(p) => Some(Dotted(p))
      decreases |name|
    {
      var dot := FirstDot(name);
      var section := name[..dot];
      ghost var q, cs := Sections(name), model.children;
      assert dot == |name| ==> section == name;
      assert cs[0..] == cs;
      var i := 0;
      while i < |children|
        invariant 0 <= i <= |children|
        invariant Walk(cs, q) == Walk(cs[i..], q)
      {
        var child := children[i];
        WalkAt(cs, i, q);
        if child.data == section || child.data == "*" || section == "*" {
          if dot == |name| {
            if child.isTestName { return Some(child.data); }
          } else {
            assert q[1..] == Sections(name[dot + 1..]);
            var rest := child.WalkDownMatch(name[dot + 1..]);
            if rest.Some? {
              WalkDotted(child.data, child.model.children, q[1..]);
              return Some(child.data + "." + rest.value);
            }
          }
        }
        i := i + 1;
      }
      r := None;
    }

    /** A new child at the end. */
    method AddChild(section: string)
      requires Valid()
      modifies this
      ensures Valid() && fresh(Repr - old(Repr)) && |children| == old(|children|) + 1
      ensures model == old(model).(children := old(model.children) + [Node(section, false, [])])
    {
      var child := new FailureListTrieNode(section, false);
      children := children + [child];
      Repr := Repr + child.Repr;
      model := model.(children := model.children + [child.model]);
    }

    method MarkChild(i: nat)
      requires Valid() && i < |children|
      modifies Repr
      ensures Valid() && Repr == old(Repr)
      ensures model == old(model).(children := old(model.children)[i := old(model.children)[i].(isTest := true)])
    {
      var child := children[i];
      child.isTestName := true;
      child.model := child.model.(isTest := true);
      model := model.(children := model.children[i := child.model]);
    }

    method GrowChild(i: nat, rest: string)
      requires Valid() && i < |children|
      modifies Repr
      ensures Valid() && fresh(Repr - old(Repr))
      ensures var c := old(model.children)[i];
        model == old(model).(children := old(model.children)[i := c.(children := InsertInto(c.children, Sections(rest)))])
      decreases |rest|, 1
    {
      var child := children[i];
      child.InsertImpl(rest);
      Repr := Repr + child.Repr;
      model := model.(children := model.children[i := child.model]);
    }

    method InsertImpl(name: string)
      requires Valid()
      modifies Repr
      ensures Valid() && fresh(Repr - old(Repr))
      ensures model == old(model).(children := InsertInto(old(model.children), Sections(name)))
      decreases |name|, 0
    {
      var dot := FirstDot(name);
      var section := name[..dot];
      ghost var q, cs := Sections(name), model.children;
      assert dot == |name| ==> section == name;
      assert dot < |name| ==> q[1..] == Sections(name[dot + 1..]);
      var i := 0;
      while i < |children| && children[i].data != section
        invariant 0 <= i <= |children|
        invariant forall j :: 0 <= j < i ==> cs[j].data != section
      {
        i := i + 1;
      }
      InsertAt(cs, i, q);
      if i == |children| {
        AddChild(section);
      }
      if dot == |name| {
        MarkChild(i);
      } else {
        GrowChild(i, name[dot + 1..]);
      }
    }

    method Insert(name: string) returns (status: Status)
      requires Valid()
      modifies Repr
      ensures Valid() && fresh(Repr - old(Repr))
      ensures status == InsertStatus(old(model.children), name)
      ensures model == old(model).(children := Inserted(old(model.children), name))
    {
      var found := WalkDownMatch(name);
      if found.Some? { return AlreadyExists(found.value); }
      var sections := Sections(name);
      for i := 0 to |sections|
        invariant ValidSections(sections[..i])
      {
        if '*' in sections[i] && |sections[i]| > 1 { return InvalidArgument; }
        assert sections[..i + 1] == sections[..i] + [sections[i]];
      }
      assert sections[..|sections|] == sections;
      InsertImpl(name);
      status := Ok;
    }
  }

  lemma WalkDotted(data: string, cs: seq<Trie>, q: seq<string>)
    requires |q| > 0 && Walk(cs, q).Some?
    ensures Dotted([data] + Walk(cs, q).value) == data + "." + Dotted(Walk(cs, q).value)
  {
    WalkSound(cs, q);
    assert ([data] + Walk(cs, q).value)[1..] == Walk(cs, q).value;
  }
}
