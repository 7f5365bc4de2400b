/** Adding and removing failures (the first pass of src/conformance/update_failure_list.py). */
module FailureListMerge {
  import opened FailureListText
  import opened Common

  datatype Result<+T> = Ok(value: T) | Raised

  ghost predicate Ascending(ups: seq<string>) {
    forall i, j :: 0 <= i < j < |ups| ==> Below(ups[i], ups[j])
  }

  function Reversed(s: seq<string>): (r: seq<string>)
    ensures |r| == |s|
  {
    if s == [] then [] else [s[|s| - 1]] + Reversed(s[..|s| - 1])
  }

  function Smaller(ups: seq<string>, name: string): seq<string> {
    if ups == [] then []
    else if Below(ups[0], name) then [ups[0]] + Smaller(ups[1..], name) else Smaller(ups[1..], name)
  }

  function Others(ups: seq<string>, name: string): seq<string> {
    if ups == [] then []
    else if Below(ups[0], name) then Others(ups[1..], name) else [ups[0]] + Others(ups[1..], name)
  }

  function Kept(lines: seq<string>, removed: set<string>): seq<string> {
    if lines == [] then []
    else if Name(lines[0]) in removed then Kept(lines[1..], removed)
    else [lines[0]] + Kept(lines[1..], removed)
  }

  /** Before each line, whether or not it is kept, go the added lines smaller than its name that
      have no place yet; the rest go at the end. */
  function Merged(lines: seq<string>, ups: seq<string>, removed: set<string>): seq<string> {
    if lines == [] then ups else
      var name := Name(lines[0]);
      Smaller(ups, name) + Kept([lines[0]], removed) + Merged(lines[1..], Others(ups, name), removed)
  }

  /** The last line gets exactly one newline. */
  function WithNewline(lines: seq<string>): (r: seq<string>)
    requires lines != []
    ensures |r| == |lines|
  {
    lines[|lines| - 1 := RStrip(lines[|lines| - 1]) + "\n"]
  }

  // ----- the loop

  lemma {:induction false} NoneSmaller(ups: seq<string>, name: string)
    requires Ascending(ups) && (ups == [] || AtMost(name, ups[0]))
    ensures Smaller(ups, name) == [] && Others(ups, name) == ups
  {
    if ups != [] {
      if |ups| > 1 {
        BelowTransitive(name, ups[0], ups[1]);
        BelowAsymmetric(name, ups[1]);
      }
      NoneSmaller(ups[1..], name);
    }
  }

  lemma TakeStep(written: seq<string>, lines: seq<string>, ups: seq<string>, removed: set<string>)
    requires lines != [] && ups != [] && Below(ups[0], Name(lines[0]))
    ensures written + [ups[0]] + Merged(lines, ups[1..], removed) == written + Merged(lines, ups, removed)
  {
    var m := Merged(lines, ups[1..], removed);
    assert Merged(lines, ups, removed) == [ups[0]] + m by {
      var name, rest := Name(lines[0]), lines[1..];
      Regroup([ups[0]], Smaller(ups[1..], name), Kept([lines[0]], removed));
      Regroup([ups[0]], Smaller(ups[1..], name) + Kept([lines[0]], removed),
              Merged(rest, Others(ups, name), removed));
    }
    Regroup(written, [ups[0]], m);
  }

  lemma SkipStep(written: seq<string>, lines: seq<string>, ups: seq<string>, removed: set<string>)
    requires lines != [] && Ascending(ups) && (ups == [] || AtMost(Name(lines[0]), ups[0]))
    ensures (if Name(lines[0]) in removed then written else written + [lines[0]])
            + Merged(lines[1..], ups, removed) == written + Merged(lines, ups, removed)
  {
    NoneSmaller(ups, Name(lines[0]));
    KeptOne(lines[0], removed);
    var m := Merged(lines[1..], ups, removed);
    if Name(lines[0]) in removed {
      assert [] + [] + m == m;
    } else {
      assert [] + [lines[0]] + m == [lines[0]] + m;
      Regroup(written, [lines[0]], m);
    }
  }

  lemma KeptOne(line: string, removed: set<string>)
    ensures Kept([line], removed) == if Name(line) in removed then [] else [line]
  {
    assert [line][1..] == [] && Kept([], removed) == [];
  }

  lemma AscendingTail(ups: seq<string>)
    requires Ascending(ups) && ups != []
    ensures Ascending(ups[1..])
  {
  }

  method ReadRemovals(addSet: set<string>, removeLines: seq<string>) returns (r: Result<set<string>>)
    ensures r.Raised? <==> exists l :: l in removeLines && l in addSet
    ensures r.Ok? ==> forall n :: n in r.value <==> exists l :: l in removeLines && Name(l) == n
  {
    var removed := {};
    for i := 0 to |removeLines|
      invariant forall l :: l in removeLines[..i] ==> l !in addSet
      invariant forall n :: n in removed <==> exists l :: l in removeLines[..i] && Name(l) == n
    {
      assert removeLines[..i + 1] == removeLines[..i] + [removeLines[i]];
      if removeLines[i] in addSet { return Raised; }
      removed := removed + {Name(removeLines[i])};
    }
    assert removeLines[..|removeLines|] == removeLines;
    return Ok(removed);
  }

  /** `addList` is what Python's sorted(add_set, reverse=True) gives. An empty file raises. */
  method MergePass(existing: string, addList: seq<string>, removed: set<string>)
    returns (r: Result<seq<string>>)
    requires Ascending(Reversed(addList))
    ensures r.Raised? <==> existing == ""
    ensures r.Ok? ==> r.value == Merged(WithNewline(SplitLines(existing)), Reversed(addList), removed)
  {
    var lines := SplitLines(existing);
    if lines == [] { return Raised; }
    lines := WithNewline(lines);
    var adds, written := addList, [];
    ghost var all := Merged(lines, Reversed(addList), removed);
    var i := 0;
    assert lines[0..] == lines;
    while i < |lines|
      invariant 0 <= i <= |lines| && Ascending(Reversed(adds))
      invariant written + Merged(lines[i..], Reversed(adds), removed) == all
    {
      var line := lines[i];
      var test := Name(line);
      while adds != [] && Below(adds[|adds| - 1], test)
        invariant Ascending(Reversed(adds))
        invariant written + Merged(lines[i..], Reversed(adds), removed) == all
        decreases |adds|
      {
        TakeStep(written, lines[i..], Reversed(adds), removed);
        AscendingTail(Reversed(adds));
        written := written + [adds[|adds| - 1]];
        adds := adds[..|adds| - 1];
      }
      SkipStep(written, lines[i..], Reversed(adds), removed);
      assert lines[i..][1..] == lines[i + 1..];
      if test !in removed { written := written + [line]; }
      i := i + 1;
    }
    while adds != []
      invariant written + Reversed(adds) == all
      decreases |adds|
    {
      written := written + [adds[|adds| - 1]];
      adds := adds[..|adds| - 1];
    }
    return Ok(written);
  }

  // ----- conservation

  /** Whether `out` is made by going through `a` and `b` in order, taking each element once. */
  ghost predicate Interleaves(out: seq<string>, a: seq<string>, b: seq<string>) {
    if out == [] then a == [] && b == []
    else
      (|| (a != [] && out[0] == a[0] && Interleaves(out[1..], a[1..], b))
       || (b != [] && out[0] == b[0] && Interleaves(out[1..], a, b[1..])))
  }

  lemma {:induction false} InterleavesSecond(x: seq<string>, out: seq<string>, a: seq<string>, b: seq<string>)
    requires Interleaves(out, a, b)
    ensures Interleaves(x + out, a, x + b)
  {
    if x == [] {
      assert x + out == out && x + b == b;
    } else {
      InterleavesSecond(x[1..], out, a, b);
      assert (x + out)[1..] == x[1..] + out && (x + b)[1..] == x[1..] + b;
    }
  }

  lemma {:induction false} InterleavesFirst(x: seq<string>, out: seq<string>, a: seq<string>, b: seq<string>)
    requires Interleaves(out, a, b)
    ensures Interleaves(x + out, x + a, b)
  {
    if x == [] {
      assert x + out == out && x + a == a;
    } else {
      InterleavesFirst(x[1..], out, a, b);
      assert (x + out)[1..] == x[1..] + out && (x + a)[1..] == x[1..] + a;
    }
  }

  lemma {:induction false} SplitAscending(ups: seq<string>, name: string)
    requires Ascending(ups)
    ensures Smaller(ups, name) + Others(ups, name) == ups
    ensures forall a :: a in Smaller(ups, name) ==> Below(a, name)
    ensures forall a :: a in Others(ups, name) ==> AtMost(name, a)
  {
    if ups != [] {
      SplitAscending(ups[1..], name);
      if AtMost(name, ups[0]) { NoneSmaller(ups, name); NoneSmaller([], name); }
    }
  }

  lemma AscendingOthers(ups: seq<string>, name: string)
    requires Ascending(ups)
    ensures Ascending(Others(ups, name))
  {
    SplitAscending(ups, name);
    var f, g := Smaller(ups, name), Others(ups, name);
    forall i, j | 0 <= i < j < |g| ensures Below(g[i], g[j]) {
      assert g[i] == ups[|f| + i] && g[j] == ups[|f| + j];
    }
  }

  /** The output is the existing lines in order, less exactly those whose name is removed,
      interleaved with each added line exactly once. */
  lemma {:induction false} MergeConserves(lines: seq<string>, ups: seq<string>, removed: set<string>)
    requires Ascending(ups)
    ensures Interleaves(Merged(lines, ups, removed), Kept(lines, removed), ups)
  {
    if lines == [] {
      InterleavesSecond(ups, [], [], []);
      assert ups + [] == ups;
    } else {
      var name, rest := Name(lines[0]), lines[1..];
      var f, k, g := Smaller(ups, name), Kept([lines[0]], removed), Others(ups, name);
      SplitAscending(ups, name);
      AscendingOthers(ups, name);
      MergeConserves(rest, g, removed);
      InterleavesFirst(k, Merged(rest, g, removed), Kept(rest, removed), g);
      InterleavesSecond(f, k + Merged(rest, g, removed), k + Kept(rest, removed), g);
      assert f + (k + Merged(rest, g, removed)) == Merged(lines, ups, removed);
      KeptFirst(lines, removed);
    }
  }

  lemma KeptFirst(lines: seq<string>, removed: set<string>)
    requires lines != []
    ensures Kept(lines, removed) == Kept([lines[0]], removed) + Kept(lines[1..], removed)
  {
    KeptOne(lines[0], removed);
  }

  /** Where every line stands: before a kept line go the kept lines before it and exactly the
      added lines that are smaller than its name or than the name of a line before it. */
  lemma {:induction false} PlacedExactly(lines: seq<string>, ups: seq<string>, removed: set<string>, i: nat)
    returns (pre: seq<string>, post: seq<string>, early: seq<string>, late: seq<string>)
    requires Ascending(ups) && i < |lines| && Name(lines[i]) !in removed
    ensures Merged(lines, ups, removed) == pre + ([lines[i]] + post)
    ensures Interleaves(pre, Kept(lines[..i], removed), early)
    ensures Interleaves(post, Kept(lines[i + 1..], removed), late)
    ensures Parted(lines[..i + 1], ups, early, late)
  {
    var rest, g := lines[1..], Others(ups, Name(lines[0]));
    AscendingOthers(ups, Name(lines[0]));
    if i == 0 {
      pre, post, early, late := Smaller(ups, Name(lines[0])), Merged(rest, g, removed), Smaller(ups, Name(lines[0])), g;
      FirstPlaced(lines, ups, removed);
      MergeConserves(rest, g, removed);
      FirstParted(lines, ups);
    } else {
      assert rest[i - 1] == lines[i] && rest[i - 1 + 1..] == lines[i + 1..];
      var pre1, early1;
      pre1, post, early1, late := PlacedExactly(rest, g, removed, i - 1);
      pre := Smaller(ups, Name(lines[0])) + (Kept([lines[0]], removed) + pre1);
      early := Smaller(ups, Name(lines[0])) + early1;
      LaterParted(lines, ups, i, early1, late);
      PlacedFirst(lines, removed, i, Smaller(ups, Name(lines[0])), Kept([lines[0]], removed), pre1, early1);
      PlacedText(Smaller(ups, Name(lines[0])), Kept([lines[0]], removed), pre1, [lines[i]] + post);
    }
  }

  lemma FirstPlaced(lines: seq<string>, ups: seq<string>, removed: set<string>)
    requires lines != [] && Name(lines[0]) !in removed
    ensures var f, m := Smaller(ups, Name(lines[0])), Merged(lines[1..], Others(ups, Name(lines[0])), removed);
      Merged(lines, ups, removed) == f + ([lines[0]] + m) && Interleaves(f, Kept(lines[..0], removed), f)
  {
    var f := Smaller(ups, Name(lines[0]));
    KeptOne(lines[0], removed);
    InterleavesSecond(f, [], [], []);
    assert f + [] == f && lines[..0] == [];
    Regroup(f, [lines[0]], Merged(lines[1..], Others(ups, Name(lines[0])), removed));
  }

  /** `early` are the lines of `ups` smaller than one of the names, and `late` the others. */
  ghost predicate Parted(lines: seq<string>, ups: seq<string>, early: seq<string>, late: seq<string>) {
    && early + late == ups
    && (forall a :: a in early ==> SmallerThanOne(a, lines))
    && (forall a :: a in late ==> !SmallerThanOne(a, lines))
  }

  lemma FirstParted(lines: seq<string>, ups: seq<string>)
    requires lines != [] && Ascending(ups)
    ensures Parted(lines[..1], ups, Smaller(ups, Name(lines[0])), Others(ups, Name(lines[0])))
  {
    SplitAscending(ups, Name(lines[0]));
    forall a ensures SmallerThanOne(a, lines[..1]) <==> Below(a, Name(lines[0])) {
      if Below(a, Name(lines[0])) { assert lines[..1][0] == lines[0]; }
    }
  }

  lemma LaterParted(lines: seq<string>, ups: seq<string>, i: nat, early: seq<string>, late: seq<string>)
    requires 0 < i < |lines| && Ascending(ups)
    requires Parted(lines[1..][..i], Others(ups, Name(lines[0])), early, late)
    ensures Parted(lines[..i + 1], ups, Smaller(ups, Name(lines[0])) + early, late)
  {
    SplitAscending(ups, Name(lines[0]));
    Regroup(Smaller(ups, Name(lines[0])), early, late);
    NamesBefore(lines, i);
    forall a | a in late ensures !SmallerThanOne(a, lines[..i + 1]) {
      assert a in early + late;
    }
  }

  ghost predicate SmallerThanOne(a: string, lines: seq<string>) {
    exists j :: 0 <= j < |lines| && Below(a, Name(lines[j]))
  }

  lemma NamesBefore(lines: seq<string>, i: nat)
    requires 0 < i < |lines|
    ensures forall a :: SmallerThanOne(a, lines[..i + 1]) <==>
                        Below(a, Name(lines[0])) || SmallerThanOne(a, lines[1..][..i])
  {
    forall a
      ensures SmallerThanOne(a, lines[..i + 1]) <==> Below(a, Name(lines[0])) || SmallerThanOne(a, lines[1..][..i])
    {
      if SmallerThanOne(a, lines[1..][..i]) {
        var j :| 0 <= j < i && Below(a, Name(lines[1..][..i][j]));
        assert lines[..i + 1][j + 1] == lines[1..][..i][j];
      }
      if SmallerThanOne(a, lines[..i + 1]) {
        var j :| 0 <= j < i + 1 && Below(a, Name(lines[..i + 1][j]));
        if j > 0 { assert lines[..i + 1][j] == lines[1..][..i][j - 1]; }
      }
      if Below(a, Name(lines[0])) { assert lines[..i + 1][0] == lines[0]; }
    }
  }

  lemma PlacedText(f: seq<string>, k: seq<string>, pre: seq<string>, post: seq<string>)
    ensures f + k + (pre + post) == f + (k + pre) + post
  {
  }

  lemma PlacedFirst(lines: seq<string>, removed: set<string>, i: nat, f: seq<string>, k: seq<string>,
                    pre: seq<string>, early: seq<string>)
    requires 0 < i < |lines| && k == Kept([lines[0]], removed)
    requires Interleaves(pre, Kept(lines[1..][..i - 1], removed), early)
    ensures Interleaves(f + (k + pre), Kept(lines[..i], removed), f + early)
  {
    assert lines[..i][1..] == lines[1..][..i - 1] && lines[..i][0] == lines[0];
    KeptFirst(lines[..i], removed);
    InterleavesFirst(k, pre, Kept(lines[1..][..i - 1], removed), early);
    InterleavesSecond(f, k + pre, Kept(lines[..i], removed), early);
  }

  // ----- order

  /** Two lines in the order of their names; comments and blank lines may stand anywhere. */
  ghost predicate Before(x: string, y: string) {
    Name(x) == "" || Name(y) == "" || AtMost(Name(x), Name(y))
  }

  ghost predicate AllBefore(xs: seq<string>, ys: seq<string>) {
    forall x, y :: x in xs && y in ys ==> Before(x, y)
  }

  ghost predicate Ordered(lines: seq<string>) {
    forall i, j :: 0 <= i < j < |lines| ==> Before(lines[i], lines[j])
  }

  /** The loop compares the whole added line with the name; whether that agrees with the order
      of the two names. */
  ghost predicate Agree(a: string, line: string) {
    if Below(a, Name(line)) then Before(a, line) else Before(line, a)
  }

  ghost predicate AllAgree(ups: seq<string>, lines: seq<string>) {
    forall a, l :: a in ups && l in lines ==> Agree(a, l)
  }

  lemma OrderedConcat(a: seq<string>, b: seq<string>)
    ensures Ordered(a + b) <==> Ordered(a) && Ordered(b) && AllBefore(a, b)
  {
    var c := a + b;
    if Ordered(c) {
      forall i, j | 0 <= i < j < |a| ensures Before(a[i], a[j]) { assert Before(c[i], c[j]); }
      forall i, j | 0 <= i < j < |b| ensures Before(b[i], b[j]) { assert Before(c[|a| + i], c[|a| + j]); }
      forall x, y | x in a && y in b ensures Before(x, y) {
        var i :| 0 <= i < |a| && a[i] == x;
        var j :| 0 <= j < |b| && b[j] == y;
        assert Before(c[i], c[|a| + j]);
      }
    }
    if Ordered(a) && Ordered(b) && AllBefore(a, b) {
      forall i, j | 0 <= i < j < |c| ensures Before(c[i], c[j]) {
        if j < |a| { assert Before(a[i], a[j]); }
        else if i >= |a| { assert Before(b[i - |a|], b[j - |a|]); }
      }
    }
  }

  lemma {:induction false} KeptFromLines(lines: seq<string>, removed: set<string>)
    ensures forall l :: l in Kept(lines, removed) <==> l in lines && Name(l) !in removed
  {
    if lines != [] {
      KeptFromLines(lines[1..], removed);
      assert lines == [lines[0]] + lines[1..];
    }
  }

  lemma {:induction false} MergedMembers(lines: seq<string>, ups: seq<string>, removed: set<string>)
    requires Ascending(ups)
    ensures forall l :: l in Merged(lines, ups, removed) <==> l in Kept(lines, removed) || l in ups
  {
    if lines != [] {
      var name := Name(lines[0]);
      SplitAscending(ups, name);
      AscendingOthers(ups, name);
      MergedMembers(lines[1..], Others(ups, name), removed);
      KeptFirst(lines, removed);
    }
  }

  /** A comment or blank line of the list survives exactly when no removal line is one: its name,
      like theirs, is empty. `removed` is what ReadRemovals gives. */
  lemma CommentsSurvive(lines: seq<string>, ups: seq<string>, removeLines: seq<string>, removed: set<string>, l: string)
    requires forall n :: n in removed <==> exists r :: r in removeLines && Name(r) == n
    requires Ascending(ups) && l in lines && l !in ups && Name(l) == ""
    ensures l in Merged(lines, ups, removed) <==> forall r :: r in removeLines ==> Name(r) != ""
  {
    MergedMembers(lines, ups, removed);
    KeptFromLines(lines, removed);
  }

  /** So one blank line among the removals takes every comment out of the list. */
  lemma BlankRemovalTakesComments(lines: seq<string>, l: string)
    requires l in lines && Name(l) == ""
    ensures Name("\n") == "" && l !in Merged(lines, [], {Name("\n")})
  {
    HeadExact("\n", "");
    assert "\n" + "" == "\n";
    LStripBlank("\n");
    assert "\n" in ["\n"];
    CommentsSurvive(lines, [], ["\n"], {""}, l);
  }

  /** The lines kept after the first come after it, so added lines smaller than its name are
      smaller than theirs. */
  lemma SmallerAgree(f: seq<string>, first: string, kept: seq<string>)
    requires forall a :: a in f ==> Below(a, Name(first))
    requires forall l :: l in kept ==> Before(first, l)
    ensures AllAgree(f, kept) <==> AllBefore(f, kept)
  {
    forall a, l | a in f && l in kept ensures Agree(a, l) <==> Before(a, l) {
      if Name(l) != "" { BelowTransitive(a, Name(first), Name(l)); }
    }
  }

  lemma AgreeConcat(f: seq<string>, g: seq<string>, k: seq<string>, l: seq<string>)
    ensures AllAgree(f + g, k + l) <==> AllAgree(f, k) && AllAgree(f, l) && AllAgree(g, k) && AllAgree(g, l)
  {
    if AllAgree(f + g, k + l) {
      forall a, x | a in f + g && x in k + l ensures Agree(a, x) {}
    }
  }

  lemma BeforeConcat(x: seq<string>, k: seq<string>, rest: seq<string>, l: seq<string>, g: seq<string>)
    requires forall y :: y in rest <==> y in l || y in g
    ensures AllBefore(x, k + rest) <==> AllBefore(x, k) && AllBefore(x, l) && AllBefore(x, g)
  {
    if AllBefore(x, k + rest) {
      forall a, y | a in x && (y in k || y in rest) ensures Before(a, y) { assert y in k + rest; }
    }
  }

  lemma AgreeAround(line: string, f: seq<string>, k: seq<string>, g: seq<string>)
    requires k == [] || k == [line]
    requires forall a :: a in f ==> Below(a, Name(line))
    requires forall a :: a in g ==> AtMost(Name(line), a)
    ensures (AllAgree(f, k) <==> AllBefore(f, k)) && (AllAgree(g, k) <==> AllBefore(k, g))
  {
    forall a | a in f ensures Agree(a, line) <==> Before(a, line) {}
    forall a | a in g ensures Agree(a, line) <==> Before(line, a) {}
  }

  lemma NoneFirst(s: seq<string>)
    ensures [] + s == s
  {
  }

  /** The order of the output around one line `k`, kept or not, taken apart. */
  lemma OutputSplit(line: string, f: seq<string>, k: seq<string>, g: seq<string>, kr: seq<string>,
                    rest: seq<string>)
    requires k == [] || k == [line]
    requires forall l :: l in kr ==> Before(line, l)
    requires forall l :: l in rest <==> l in kr || l in g
    ensures Ordered(f + k + rest) <==>
            Ordered(f) && Ordered(rest) && AllBefore(f, k) && AllBefore(f, kr) && AllBefore(f, g) && AllBefore(k, g)
  {
    assert Ordered(f + k + rest) <==> Ordered(f) && Ordered(k + rest) && AllBefore(f, k + rest) by {
      Regroup(f, k, rest);
      OrderedConcat(f, k + rest);
    }
    assert Ordered(k + rest) <==> Ordered(rest) && AllBefore(k, rest) by { OrderedConcat(k, rest); }
    assert AllBefore(k, rest) <==> AllBefore(k, g) by {
      BeforeConcat(k, [], rest, kr, g);
      NoneFirst(rest);
    }
    BeforeConcat(f, k, rest, kr, g);
  }

  /** The condition on the added lines, taken apart in the same way. */
  lemma ConditionSplit(line: string, f: seq<string>, k: seq<string>, g: seq<string>, kr: seq<string>)
    requires k == [] || k == [line]
    requires forall a :: a in f ==> Below(a, Name(line))
    requires forall a :: a in g ==> AtMost(Name(line), a)
    requires forall l :: l in kr ==> Before(line, l)
    ensures Ordered(f + g) && AllAgree(f + g, k + kr) <==>
            && Ordered(f) && Ordered(g) && AllBefore(f, g)
            && AllBefore(f, k) && AllBefore(f, kr) && AllBefore(k, g) && AllAgree(g, kr)
  {
    OrderedConcat(f, g);
    AgreeConcat(f, g, k, kr);
    SmallerAgree(f, line, kr);
    AgreeAround(line, f, k, g);
  }

  /** Given existing lines in order, the output is in order exactly when the added lines are in
      order among themselves and each comparison the loop makes agrees with the names. */
  lemma {:induction false} OrderedExactly(lines: seq<string>, ups: seq<string>, removed: set<string>)
    requires Ascending(ups) && Ordered(lines)
    ensures Ordered(Merged(lines, ups, removed)) <==> Ordered(ups) && AllAgree(ups, Kept(lines, removed))
  {
    if lines != [] {
      var name, rest := Name(lines[0]), lines[1..];
      var f, k, g := Smaller(ups, name), Kept([lines[0]], removed), Others(ups, name);
      var kr := Kept(rest, removed);
      SplitAscending(ups, name);
      AscendingOthers(ups, name);
      OrderedExactly(rest, g, removed);
      KeptFirst(lines, removed);
      KeptFromLines(rest, removed);
      forall l | l in kr ensures Before(lines[0], l) {
        var j :| 0 <= j < |rest| && rest[j] == l;
        assert lines[j + 1] == l;
      }
      MergedMembers(rest, g, removed);
      OutputSplit(lines[0], f, k, g, kr, Merged(rest, g, removed));
      ConditionSplit(lines[0], f, k, g, kr);
    }
  }

  /** Nothing before the name, and no character after it that could be smaller than one in it. */
  predicate Plain(a: string) {
    Name(a) == "" || (Name(a) <= a && (|Name(a)| == |a| || a[|Name(a)|] <= '#'))
  }

  predicate AboveHash(name: string) {
    forall i :: 0 <= i < |name| ==> name[i] > '#'
  }

  /** Comparing a whole line with a name then agrees with comparing the names. */
  lemma {:induction false} PlainOrder(n: string, r: string, m: string)
    requires AboveHash(n) && AboveHash(m) && (r == "" || r[0] <= '#')
    requires AtMost(m, n + r)
    ensures AtMost(m, n)
  {
    if n == "" {
      assert n + r == r;
    } else if m != "" && n[0] == m[0] {
      assert (n + r)[1..] == n[1..] + r;
      PlainOrder(n[1..], r, m[1..]);
    }
  }

  lemma PlainAgrees(a: string, m: string)
    requires Plain(a) && Name(a) != "" && AboveHash(Name(a)) && AboveHash(m)
    ensures if Below(a, m) then AtMost(Name(a), m) else AtMost(m, Name(a))
  {
    var n := Name(a);
    var r := a[|n|..];
    assert a == n + r;
    if Below(a, m) {
      NameAtMostLine(a);
      BelowTransitive(n, a, m);
      BelowAsymmetric(n, m);
    } else {
      PlainOrder(n, r, m);
    }
  }

  /** Names of characters above '#', added lines that begin with them and go on with a blank:
      then a list in order stays in order. */
  lemma SortedWhenPlain(lines: seq<string>, ups: seq<string>, removed: set<string>)
    requires Ascending(ups) && Ordered(lines)
    requires forall a :: a in ups ==> Plain(a) && AboveHash(Name(a))
    requires forall l :: l in lines ==> AboveHash(Name(l))
    ensures Ordered(Merged(lines, ups, removed))
  {
    OrderedExactly(lines, ups, removed);
    KeptFromLines(lines, removed);
    forall a, l | a in ups && l in Kept(lines, removed) ensures Agree(a, l) {
      if Name(a) != "" { PlainAgrees(a, Name(l)); }
    }
    forall i, j | 0 <= i < j < |ups| ensures Before(ups[i], ups[j]) {
      PlainPair(ups[i], ups[j]);
    }
  }

  lemma NameAtMostLine(a: string)
    requires Name(a) <= a
    ensures AtMost(Name(a), a)
  {
    var n := Name(a);
    assert a == n + a[|n|..];
    PrefixAtMost(n, a[|n|..]);
  }

  lemma PlainPair(a: string, b: string)
    requires Below(a, b) && Plain(a) && Plain(b) && AboveHash(Name(a)) && AboveHash(Name(b))
    ensures Before(a, b)
  {
    if Name(a) != "" && Name(b) != "" && Below(Name(b), Name(a)) {
      assert Below(b, Name(a)) by { PlainAgrees(b, Name(a)); }
      NameAtMostLine(a);
      BelowTransitive(b, Name(a), a);
      BelowAsymmetric(b, a);
    }
  }

  /** Names of characters above ' ' are not enough: '!' and '"' lie between ' ' and '#', so a line
      whose '#' follows its name directly compares as greater than a longer name. Adding a failure
      of A to the sorted list of A! and B leaves A after A!. */
  lemma SpaceIsNotEnough(existing: string, addList: seq<string>)
    requires existing == "A!\nB\n" && addList == ["A#m\n"]
    ensures var lines := WithNewline(SplitLines(existing));
      && lines == ["A!\n", "B\n"] && Name(lines[0]) == "A!" && Name(lines[1]) == "B" && Name(addList[0]) == "A"
      && Ascending(Reversed(addList)) && Ordered(lines)
      && !Ordered(Merged(lines, Reversed(addList), {}))
  {
    var a, lines := addList[0], WithNewline(SplitLines(existing));
    TwoNamedLines(existing);
    assert Reversed(addList) == addList by { assert addList[..0] == []; }
    NameBefore("A", "#m\n");
    assert "A" + "#m\n" == a;
    assert !Agree(a, lines[0]) by { ShorterName(a); }
    OrderedExactly(lines, addList, {});
    KeptFromLines(lines, {});
  }

  lemma TwoNamedLines(existing: string)
    requires existing == "A!\nB\n"
    ensures WithNewline(SplitLines(existing)) == ["A!\n", "B\n"]
    ensures Name("A!\n") == "A!" && Name("B\n") == "B" && Ordered(["A!\n", "B\n"])
  {
    var lines := ["A!\n", "B\n"];
    assert AreLines(lines);
    assert Concat(lines) == existing by {
      assert lines[1..] == ["B\n"] && lines[1..][1..] == [];
      assert Concat(lines[1..]) == "B\n";
    }
    LinesRoundTrip(lines);
    RStripExact("B", "\n");
    assert "B" + "\n" == "B\n";
    NameBefore("A!", "\n");
    NameBefore("B", "\n");
    assert "A!" + "\n" == "A!\n";
    assert Below("A!", "B");
    BelowAsymmetric("A!", "B");
  }

  /** `A#m` comes after `A!`, whose name is greater than A. */
  lemma ShorterName(a: string)
    requires a == "A#m\n"
    ensures !Below(a, "A!") && Below("A", "A!")
  {
    assert a[1..] == "#m\n" && "A!"[1..] == "!" && "A"[1..] == "";
    assert !Below("#m\n", "!");
  }

  lemma NameBefore(name: string, rest: string)
    requires name != "" && '#' !in name && forall i :: 0 <= i < |name| ==> !IsSpace(name[i])
    requires rest != "" && (rest[0] == '#' || rest == "\n")
    ensures Name(name + rest) == name
  {
    if rest[0] == '#' {
      HeadExact(name, rest);
      StripAround(name, "");
    } else {
      HeadExact(name + rest, "");
      assert name + rest + "" == name + rest;
      StripAround(name, rest);
    }
  }

  lemma StripAround(name: string, after: string)
    requires name != "" && !IsSpace(name[0]) && !IsSpace(name[|name| - 1]) && AllSpace(after)
    ensures Strip(name + after) == name && (after == "" ==> Strip(name) == name)
  {
    StripExact("", name, after);
    assert "" + name + after == name + after;
    if after == "" { assert name + after == name; }
  }

  // ----- the text the second pass reads

  lemma {:induction false} NameIgnoresTrailing(s: string, after: string)
    requires AllSpace(after)
    ensures Name(s + after) == Name(s)
  {
    var h := Head(s);
    if HasMessage(s) {
      assert s + after == h + (s[|h|..] + after);
      HeadExact(h, s[|h|..] + after);
    } else {
      HeadExact(s + after, "");
      assert s + after + "" == s + after;
      var b, a := StripParts(s);
      assert s + after == b + Strip(s) + (a + after);
      StripExact(b, Strip(s), a + after);
    }
  }

  /** Every line but the last is left as it is; the last keeps its text up to the white space at
      its end, and a newline follows. */
  lemma WithNewlineExact(lines: seq<string>, text: string, after: string)
    requires lines != [] && lines[|lines| - 1] == text + after && AllSpace(after)
    requires text != "" ==> !IsSpace(text[|text| - 1])
    ensures |WithNewline(lines)| == |lines|
    ensures forall i :: 0 <= i < |lines| - 1 ==> WithNewline(lines)[i] == lines[i]
    ensures WithNewline(lines)[|lines| - 1] == text + "\n"
  {
    if text == "" {
      RStripBlank(after);
      assert text + after == after;
    } else {
      RStripExact(text, after);
    }
  }

  lemma {:induction false} RStripBlank(s: string)
    requires AllSpace(s)
    ensures RStrip(s) == ""
  {
    if s != "" { RStripBlank(s[..|s| - 1]); }
  }

  lemma WithNewlineKeepsNames(lines: seq<string>, i: nat)
    requires i < |lines|
    ensures Name(WithNewline(lines)[i]) == Name(lines[i])
  {
    if i == |lines| - 1 {
      var l := lines[i];
      var after := RStripParts(l);
      NameIgnoresTrailing(RStrip(l), after);
      NameIgnoresTrailing(RStrip(l), "\n");
    }
  }

  lemma WithNewlineIsLine(line: string)
    requires IsLine(line)
    ensures IsLine(RStrip(line) + "\n") && EndsLine(RStrip(line) + "\n")
  {
    var r := RStrip(line);
    forall i | 0 <= i < |r| ensures !IsBreak(r[i]) {
      assert r[i] == line[i];
    }
  }

  ghost predicate AllEnd(lines: seq<string>) {
    forall i :: 0 <= i < |lines| ==> EndsLine(lines[i])
  }

  /** All but the last end in a line break. */
  ghost predicate FrontEnds(lines: seq<string>) {
    forall i :: 0 <= i < |lines| - 1 ==> EndsLine(lines[i])
  }

  lemma FrontEndsConcat(a: seq<string>, b: seq<string>)
    ensures FrontEnds(a + b) <==> if b == [] then FrontEnds(a) else AllEnd(a) && FrontEnds(b)
  {
    var c := a + b;
    if b == [] {
      assert c == a;
    } else {
      if FrontEnds(c) {
        forall i | 0 <= i < |a| ensures EndsLine(a[i]) { assert EndsLine(c[i]); }
        forall i | 0 <= i < |b| - 1 ensures EndsLine(b[i]) { assert EndsLine(c[|a| + i]); }
      }
      if AllEnd(a) && FrontEnds(b) {
        forall i | 0 <= i < |c| - 1 ensures EndsLine(c[i]) {
          if i < |a| { assert EndsLine(a[i]); } else { assert EndsLine(b[i - |a|]); }
        }
      }
    }
  }

  /** Every line from the first whose name exceeds `a` on is removed, so nothing follows `a`. */
  predicate NothingAfter(lines: seq<string>, a: string, removed: set<string>) {
    lines == [] ||
    if Below(a, Name(lines[0])) then Kept(lines, removed) == [] else NothingAfter(lines[1..], a, removed)
  }

  /** Each added line ends in its line break, unless it is the last and nothing follows it. */
  ghost predicate AddedEnd(lines: seq<string>, ups: seq<string>, removed: set<string>) {
    forall i :: 0 <= i < |ups| ==>
      EndsLine(ups[i]) || (i == |ups| - 1 && NothingAfter(lines, ups[i], removed))
  }

  lemma {:induction false} NoneAdded(lines: seq<string>, removed: set<string>)
    ensures Merged(lines, [], removed) == Kept(lines, removed)
  {
    if lines != [] {
      NoneAdded(lines[1..], removed);
      KeptFirst(lines, removed);
      assert [] + Kept([lines[0]], removed) == Kept([lines[0]], removed);
    }
  }

  lemma KeptEnd(lines: seq<string>, removed: set<string>)
    requires AllEnd(lines)
    ensures AllEnd(Kept(lines, removed))
  {
    var kept := Kept(lines, removed);
    KeptFromLines(lines, removed);
    forall i | 0 <= i < |kept| ensures EndsLine(kept[i]) {
      assert kept[i] in kept;
      var j :| 0 <= j < |lines| && lines[j] == kept[i];
    }
  }

  /** When no added line is left for the other lines. */
  lemma LastAdded(lines: seq<string>, ups: seq<string>, removed: set<string>)
    requires lines != [] && AllEnd(lines) && forall a :: a in ups ==> Below(a, Name(lines[0]))
    ensures FrontEnds(ups + Kept(lines, removed)) <==> AddedEnd(lines, ups, removed)
  {
    KeptEnd(lines, removed);
    FrontEndsConcat(ups, Kept(lines, removed));
    forall i | 0 <= i < |ups| ensures NothingAfter(lines, ups[i], removed) <==> Kept(lines, removed) == [] {
      assert ups[i] in ups;
    }
  }

  /** When some are left, the last of them decides. */
  lemma LaterAdded(lines: seq<string>, f: seq<string>, g: seq<string>, removed: set<string>)
    requires lines != [] && g != [] && forall a :: a in g ==> AtMost(Name(lines[0]), a)
    ensures AddedEnd(lines, f + g, removed) <==> AllEnd(f) && AddedEnd(lines[1..], g, removed)
  {
    var ups := f + g;
    forall i | 0 <= i < |g| ensures NothingAfter(lines, g[i], removed) <==> NothingAfter(lines[1..], g[i], removed) {
      assert g[i] in g;
    }
    if AddedEnd(lines, ups, removed) {
      forall i | 0 <= i < |f| ensures EndsLine(f[i]) { assert ups[i] == f[i]; }
      forall i | 0 <= i < |g|
        ensures EndsLine(g[i]) || (i == |g| - 1 && NothingAfter(lines[1..], g[i], removed))
      {
        assert ups[|f| + i] == g[i];
      }
    }
    if AllEnd(f) && AddedEnd(lines[1..], g, removed) {
      forall i | 0 <= i < |ups|
        ensures EndsLine(ups[i]) || (i == |ups| - 1 && NothingAfter(lines, ups[i], removed))
      {
        if i < |f| { assert EndsLine(f[i]); } else { assert ups[i] == g[i - |f|]; }
      }
    }
  }

  lemma {:induction false} MergedFrontEnds(lines: seq<string>, ups: seq<string>, removed: set<string>)
    requires Ascending(ups) && AllEnd(lines)
    ensures FrontEnds(Merged(lines, ups, removed)) <==> AddedEnd(lines, ups, removed)
  {
    if lines != [] {
      var name, rest := Name(lines[0]), lines[1..];
      var f, k, g := Smaller(ups, name), Kept([lines[0]], removed), Others(ups, name);
      SplitAscending(ups, name);
      if g == [] {
        assert f == ups by { assert f + [] == f; }
        NoneAdded(rest, removed);
        KeptFirst(lines, removed);
        Regroup(ups, k, Kept(rest, removed));
        LastAdded(lines, ups, removed);
      } else {
        var out := Merged(rest, g, removed);
        AscendingOthers(ups, name);
        MergedFrontEnds(rest, g, removed);
        MergedMembers(rest, g, removed);
        assert g[0] in out;
        KeptEnd([lines[0]], removed);
        FrontEndsConcat(f + k, out);
        AllEndConcat(f, k);
        LaterAdded(lines, f, g, removed);
      }
    }
  }

  lemma AllEndConcat(a: seq<string>, b: seq<string>)
    requires AllEnd(b)
    ensures AllEnd(a + b) <==> AllEnd(a)
  {
    if AllEnd(a + b) {
      forall i | 0 <= i < |a| ensures EndsLine(a[i]) { assert EndsLine((a + b)[i]); }
    }
  }

  lemma FixedLines(existing: string)
    requires existing != ""
    ensures AllEnd(WithNewline(SplitLines(existing)))
    ensures forall l :: l in WithNewline(SplitLines(existing)) ==> IsLine(l)
  {
    var lines := SplitLines(existing);
    var fixed := WithNewline(lines);
    SplitGivesLines(existing);
    WithNewlineIsLine(lines[|lines| - 1]);
    forall l | l in fixed ensures IsLine(l) && EndsLine(l) {
      var i :| 0 <= i < |fixed| && fixed[i] == l;
    }
    forall i | 0 <= i < |fixed| ensures EndsLine(fixed[i]) { assert fixed[i] in fixed; }
  }

  /** What the first pass writes reads back as the merged lines exactly when each added line ends
      in its line break, or is the last one with nothing after it. */
  lemma MergeReadsBack(existing: string, ups: seq<string>, removed: set<string>)
    requires existing != "" && Ascending(ups) && forall a :: a in ups ==> IsLine(a)
    ensures var lines := WithNewline(SplitLines(existing));
      var out := Merged(lines, ups, removed);
      && (forall l :: l in out ==> IsLine(l))
      && (SplitLines(Concat(out)) == out <==> AddedEnd(lines, ups, removed))
  {
    var lines := WithNewline(SplitLines(existing));
    var out := Merged(lines, ups, removed);
    FixedLines(existing);
    MergedMembers(lines, ups, removed);
    KeptFromLines(lines, removed);
    MergedFrontEnds(lines, ups, removed);
    LinesRoundTrip(out);
    forall i | 0 <= i < |out| ensures IsLine(out[i]) { assert out[i] in out; }
  }

  /** So an added line without its line break, with a kept line after it, is lost in that line. */
  lemma UnendedLineIsLost(existing: string, ups: seq<string>, removed: set<string>, i: nat)
    requires existing != "" && Ascending(ups) && forall a :: a in ups ==> IsLine(a)
    requires i < |ups| && !EndsLine(ups[i])
    requires i < |ups| - 1 || !NothingAfter(WithNewline(SplitLines(existing)), ups[i], removed)
    ensures var out := Merged(WithNewline(SplitLines(existing)), ups, removed);
      ups[i] in out && SplitLines(Concat(out)) != out
  {
    MergeReadsBack(existing, ups, removed);
    MergedMembers(WithNewline(SplitLines(existing)), ups, removed);
    assert ups[i] in ups;
  }
}
