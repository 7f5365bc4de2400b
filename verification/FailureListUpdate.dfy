/** Both passes of src/conformance/update_failure_list.py, one after the other. */
module FailureListUpdate {
  import opened FailureListText
  import opened FailureListMerge
  import opened FailureListAlign

  /** The second pass reads the text that the first has written. */
  method Update(existing: string, addList: seq<string>, removed: set<string>) returns (r: Result<string>)
    requires Ascending(Reversed(addList))
    ensures r.Raised? <==> existing == ""
    ensures r.Ok? ==>
      r.value == Aligned(SplitLines(Concat(Merged(WithNewline(SplitLines(existing)), Reversed(addList), removed))))
  {
    var written := MergePass(existing, addList, removed);
    if written.Raised? { return Raised; }
    var out := AlignPass(Concat(written.value));
    return Ok(out);
  }

  /** The updated file has the merged lines, aligned and one by one, exactly when every added line
      ends in its line break or has nothing after it, and no failure before the last line has a
      blank message. */
  lemma UpdateKeepsLines(existing: string, ups: seq<string>, removed: set<string>)
    requires existing != "" && Ascending(ups) && forall a :: a in ups ==> IsLine(a)
    ensures var lines := WithNewline(SplitLines(existing));
      var out := Merged(lines, ups, removed);
      SplitLines(Aligned(SplitLines(Concat(out)))) == AlignAll(out) <==>
      AddedEnd(lines, ups, removed) && forall i :: 0 <= i < |out| - 1 ==> !LosesBreak(out[i])
  {
    var out := Merged(WithNewline(SplitLines(existing)), ups, removed);
    MergeReadsBack(existing, ups, removed);
    KeepsLines(Concat(out));
    if SplitLines(Aligned(SplitLines(Concat(out)))) == AlignAll(out) {
      forall i | 0 <= i < |out| ensures IsLine(out[i]) { assert out[i] in out; }
      NoMoreAligned(Concat(out));
      NoMoreLines(out);
      LinesRoundTrip(out);
    }
  }

  lemma NoMoreAligned(text: string)
    ensures |SplitLines(Aligned(SplitLines(text)))| <= |SplitLines(text)|
  {
    var lines := SplitLines(text);
    SplitGivesLines(text);
    ConcatAligned(lines);
    forall i | 0 <= i < |lines| ensures IsLine(AlignAll(lines)[i]) { AlignIsLine(lines[i]); }
    NoMoreLines(AlignAll(lines));
  }

  /** Then each line of the file has the name and the message of the merged line it comes from. */
  lemma UpdateKeepsFailures(existing: string, ups: seq<string>, removed: set<string>, i: nat)
    requires existing != "" && Ascending(ups) && forall a :: a in ups ==> IsLine(a)
    requires AddedEnd(WithNewline(SplitLines(existing)), ups, removed)
    requires var out := Merged(WithNewline(SplitLines(existing)), ups, removed);
      i < |out| && forall j :: 0 <= j < |out| - 1 ==> !LosesBreak(out[j])
    ensures var out := Merged(WithNewline(SplitLines(existing)), ups, removed);
      var file := SplitLines(Aligned(SplitLines(Concat(out))));
      |file| == |out| && Name(file[i]) == Name(out[i]) && Message(file[i]) == Message(out[i])
  {
    UpdateKeepsLines(existing, ups, removed);
    AlignKeeps(Merged(WithNewline(SplitLines(existing)), ups, removed)[i]);
  }

  // ----- from the file's own lines

  /** The same name and the same message, up to white space after it. */
  predicate SameFailure(x: string, y: string) {
    Name(x) == Name(y) && HasMessage(x) == HasMessage(y) && RStrip(Message(x)) == RStrip(Message(y))
  }

  predicate AllSame(xs: seq<string>, ys: seq<string>) {
    |xs| == |ys| && forall i :: 0 <= i < |xs| ==> SameFailure(xs[i], ys[i])
  }

  lemma StripTrailing(s: string, after: string)
    requires AllSpace(after)
    ensures Strip(s + after) == Strip(s)
  {
    var b, a := StripParts(s);
    assert s + after == b + Strip(s) + (a + after);
    StripExact(b, Strip(s), a + after);
  }

  lemma HeadBefore(s: string, after: string)
    requires HasMessage(s)
    ensures Head(s + after) == Head(s) && HasMessage(s + after)
    ensures (s + after)[|Head(s)| + 1..] == s[|Head(s)| + 1..] + after
  {
    var h := Head(s);
    assert s + after == h + (s[|h|..] + after);
    HeadExact(h, s[|h|..] + after);
  }

  lemma TrailingSame(s: string, after: string)
    requires AllSpace(after)
    ensures SameFailure(s + after, s)
  {
    NameIgnoresTrailing(s, after);
    if HasMessage(s) {
      HeadBefore(s, after);
      StripTrailing(s[|Head(s)| + 1..], after);
    } else {
      HeadExact(s + after, "");
      assert s + after + "" == s + after;
    }
  }

  lemma FixedSame(lines: seq<string>)
    requires lines != []
    ensures AllSame(WithNewline(lines), lines)
  {
    var last := lines[|lines| - 1];
    var after := RStripParts(last);
    WithNewlineExact(lines, RStrip(last), after);
    LastSame(RStrip(last), after);
  }

  lemma LastSame(text: string, after: string)
    requires AllSpace(after)
    ensures SameFailure(text + "\n", text + after)
  {
    TrailingSame(text, after);
    TrailingSame(text, "\n");
  }

  lemma SameConcat(a: seq<string>, b: seq<string>, c: seq<string>, d: seq<string>)
    requires AllSame(a, b) && AllSame(c, d)
    ensures AllSame(a + c, b + d)
  {
    forall i | 0 <= i < |a + c| ensures SameFailure((a + c)[i], (b + d)[i]) {
      if i < |a| { assert SameFailure(a[i], b[i]); } else { assert SameFailure(c[i - |a|], d[i - |a|]); }
    }
  }

  /** The merge looks at names only. */
  lemma {:induction false} MergedSame(xs: seq<string>, ys: seq<string>, ups: seq<string>, removed: set<string>)
    requires AllSame(xs, ys)
    ensures AllSame(Merged(xs, ups, removed), Merged(ys, ups, removed))
  {
    if xs != [] {
      assert SameFailure(xs[0], ys[0]);
      assert AllSame(xs[1..], ys[1..]) by {
        forall i | 0 <= i < |xs[1..]| ensures SameFailure(xs[1..][i], ys[1..][i]) {
          assert SameFailure(xs[i + 1], ys[i + 1]);
        }
      }
      MergedSame(xs[1..], ys[1..], Others(ups, Name(xs[0])), removed);
      KeptOne(xs[0], removed);
      KeptOne(ys[0], removed);
      var f := Smaller(ups, Name(xs[0]));
      SameConcat(f, f, Kept([xs[0]], removed), Kept([ys[0]], removed));
      SameConcat(f + Kept([xs[0]], removed), f + Kept([ys[0]], removed),
                 Merged(xs[1..], Others(ups, Name(xs[0])), removed), Merged(ys[1..], Others(ups, Name(xs[0])), removed));
    }
  }

  lemma {:induction false} NothingAfterSame(xs: seq<string>, ys: seq<string>, a: string, removed: set<string>)
    requires AllSame(xs, ys)
    ensures |Kept(xs, removed)| == |Kept(ys, removed)|
    ensures NothingAfter(xs, a, removed) == NothingAfter(ys, a, removed)
  {
    if xs != [] {
      assert SameFailure(xs[0], ys[0]);
      forall i | 0 <= i < |xs[1..]| ensures SameFailure(xs[1..][i], ys[1..][i]) {
        assert SameFailure(xs[i + 1], ys[i + 1]);
      }
      NothingAfterSame(xs[1..], ys[1..], a, removed);
    }
  }

  lemma SameLoses(x: string, y: string)
    requires SameFailure(x, y)
    ensures LosesBreak(x) == LosesBreak(y)
  {
    BlankMessage(x);
    BlankMessage(y);
  }

  lemma BlankMessage(x: string)
    ensures RStrip(Message(x)) == "" <==> Message(x) == ""
  {
    var m := Message(x);
    var after := RStripParts(m);
    if RStrip(m) == "" { assert m == after; }
  }

  lemma SameConditions(xs: seq<string>, ys: seq<string>, ups: seq<string>, removed: set<string>)
    requires AllSame(xs, ys) && AddedEnd(ys, ups, removed)
    ensures AddedEnd(xs, ups, removed)
  {
    forall i | 0 <= i < |ups| ensures NothingAfter(xs, ups[i], removed) == NothingAfter(ys, ups[i], removed) {
      NothingAfterSame(xs, ys, ups[i], removed);
    }
  }

  /** No failure before the last line has a blank message. */
  predicate KeepsBreaks(lines: seq<string>) {
    forall j :: 0 <= j < |lines| - 1 ==> !LosesBreak(lines[j])
  }

  lemma SameBreaks(xs: seq<string>, ys: seq<string>)
    requires AllSame(xs, ys) && KeepsBreaks(ys)
    ensures KeepsBreaks(xs)
  {
    forall j | 0 <= j < |xs| - 1 ensures !LosesBreak(xs[j]) {
      assert SameFailure(xs[j], ys[j]);
      SameLoses(xs[j], ys[j]);
    }
  }

  lemma AlignedSame(xs: seq<string>, ys: seq<string>)
    requires AllSame(xs, ys)
    ensures AllSame(AlignAll(xs), ys)
  {
    forall i | 0 <= i < |xs| ensures SameFailure(AlignAll(xs)[i], ys[i]) {
      AlignKeeps(xs[i]);
      assert SameFailure(xs[i], ys[i]);
    }
  }

  /** What becomes of the lines of the file. With `own` the merge of its own lines, the updated
      file has the failures of `own` one by one, when each added line ends in its line break or
      has nothing after it, and no failure before the last line has a blank message. */
  lemma UpdateKeepsOwnLines(existing: string, ups: seq<string>, removed: set<string>)
    requires existing != "" && Ascending(ups) && forall a :: a in ups ==> IsLine(a)
    requires AddedEnd(SplitLines(existing), ups, removed)
    requires KeepsBreaks(Merged(SplitLines(existing), ups, removed))
    ensures var out := Merged(WithNewline(SplitLines(existing)), ups, removed);
      AllSame(SplitLines(Aligned(SplitLines(Concat(out)))), Merged(SplitLines(existing), ups, removed))
  {
    var lines := SplitLines(existing);
    var fixed, own := WithNewline(lines), Merged(lines, ups, removed);
    var out := Merged(fixed, ups, removed);
    FixedSame(lines);
    MergedSame(fixed, lines, ups, removed);
    SameConditions(fixed, lines, ups, removed);
    SameBreaks(out, own);
    UpdateKeepsLines(existing, ups, removed);
    AlignedSame(out, own);
  }
}
