/** Aligning the failure messages (the second pass of src/conformance/update_failure_list.py). */
module FailureListAlign {
  import opened FailureListText
  import opened Common

  const DEFAULT_ALIGNMENT := 114

  /** Python's ' ' * n, which is empty for a negative n. */
  function Spaces(n: int): (r: string)
    ensures AllSpace(r) && '#' !in r && |r| == if n < 0 then 0 else n
  {
    seq(if n < 0 then 0 else n, _ => ' ')
  }

  /** Blank lines, comments and lines without '#' are left alone. */
  predicate IsFailure(line: string) {
    HasMessage(line) && Name(line) != ""
  }

  /** The part of an aligned line up to its message. */
  function Lead(name: string): string {
    name + Spaces(DEFAULT_ALIGNMENT - |name|) + " # "
  }

  function Align(line: string): string {
    if IsFailure(line) then Lead(Name(line)) + Message(line) else line
  }

  /** The text the pass writes for some lines. */
  function Aligned(lines: seq<string>): string {
    if lines == [] then "" else Align(lines[0]) + Aligned(lines[1..])
  }

  /** The body of the loop, for one line. */
  method AlignLine(line: string) returns (r: string)
    ensures r == Align(line)
  {
    r := line;
    var test := Name(line);
    if HasMessage(line) && test != "" {
      var message := LStrip(line[|Head(line)| + 1..]);
      var spaces := Spaces(DEFAULT_ALIGNMENT - |test|);
      r := test + spaces + " # " + message;
    }
  }

  method AlignPass(text: string) returns (out: string)
    ensures out == Aligned(SplitLines(text))
  {
    var lines := SplitLines(text);
    ghost var goal := Aligned(lines);
    out := "";
    var i := 0;
    NothingFirst(lines);
    while i < |lines|
      invariant 0 <= i <= |lines| && out + Aligned(lines[i..]) == goal
    {
      var line := AlignLine(lines[i]);
      AlignStep(out, lines, i);
      out := out + line;
      i := i + 1;
    }
    NothingLast(out, lines);
  }

  lemma NothingFirst(lines: seq<string>)
    ensures "" + Aligned(lines[0..]) == Aligned(lines)
  {
    assert lines[0..] == lines;
  }

  lemma NothingLast(out: string, lines: seq<string>)
    ensures out + Aligned(lines[|lines|..]) == out
  {
    assert lines[|lines|..] == [];
  }

  lemma AlignStep(out: string, lines: seq<string>, i: nat)
    requires i < |lines|
    ensures out + Align(lines[i]) + Aligned(lines[i + 1..]) == out + Aligned(lines[i..])
  {
    assert lines[i..][1..] == lines[i + 1..];
    Regroup(out, Align(lines[i]), Aligned(lines[i + 1..]));
  }

  // ----- one line

  lemma NameStripped(line: string)
    ensures '#' !in Name(line)
    ensures Name(line) != "" ==> !IsSpace(Name(line)[0]) && !IsSpace(Name(line)[|Name(line)| - 1])
  {
    var b, a := StripParts(Head(line));
    var n := Name(line);
    forall i | 0 <= i < |n| ensures n[i] != '#' {
      assert Head(line)[|b| + i] == n[i];
    }
  }

  /** What follows the lead of an aligned line is its message, less white space in front. */
  lemma LeadParts(name: string, rest: string)
    requires name != "" && '#' !in name && !IsSpace(name[0]) && !IsSpace(name[|name| - 1])
    ensures var line := Lead(name) + rest;
      && IsFailure(line) && Name(line) == name && Message(line) == LStrip(rest)
      && |Head(line)| == 1 + (if |name| < DEFAULT_ALIGNMENT then DEFAULT_ALIGNMENT else |name|)
      && Align(line) == Lead(name) + LStrip(rest)
  {
    LeadSplits(name, rest);
    GapParts(name, Spaces(DEFAULT_ALIGNMENT - |name|) + " ", rest, Lead(name) + rest);
  }

  lemma LeadSplits(name: string, rest: string)
    ensures Lead(name) + rest == (name + (Spaces(DEFAULT_ALIGNMENT - |name|) + " ")) + ("# " + rest)
  {
    var gap := Spaces(DEFAULT_ALIGNMENT - |name|);
    assert " # " == " " + "# ";
    Regroup(gap, " ", "# ");
    Regroup(name, gap, " # ");
    Regroup(name, gap + " ", "# ");
    Regroup(name + (gap + " "), "# ", rest);
  }

  lemma GapParts(name: string, gap: string, rest: string, line: string)
    requires name != "" && '#' !in name && !IsSpace(name[0]) && !IsSpace(name[|name| - 1])
    requires AllSpace(gap) && line == (name + gap) + ("# " + rest)
    ensures Head(line) == name + gap && HasMessage(line)
    ensures Name(line) == name && Message(line) == LStrip(rest)
  {
    var h := name + gap;
    assert Head(line) == h by {
      SpacesNoHash(gap);
      HeadExact(h, "# " + rest);
    }
    assert Strip(h) == name by { StripGap(name, gap); }
    assert LStrip(line[|h| + 1..]) == LStrip(rest) by { AfterHash(h, rest); }
  }

  lemma StripGap(name: string, gap: string)
    requires name != "" && !IsSpace(name[0]) && !IsSpace(name[|name| - 1]) && AllSpace(gap)
    ensures Strip(name + gap) == name
  {
    StripExact("", name, gap);
    assert "" + name + gap == name + gap;
  }

  lemma SpacesNoHash(gap: string)
    requires AllSpace(gap)
    ensures '#' !in gap
  {
  }

  lemma AfterHash(h: string, rest: string)
    ensures LStrip((h + ("# " + rest))[|h| + 1..]) == LStrip(rest)
  {
    var s := h + ("# " + rest);
    assert s[|h| + 1..] == [' '] + rest;
    assert ([' '] + rest)[1..] == rest;
  }

  lemma {:induction false} LStripTwice(s: string)
    ensures LStrip(LStrip(s)) == LStrip(s)
  {
  }

  /** Aligning keeps the name and the message, puts '#' in its column, and once is enough. */
  lemma AlignKeeps(line: string)
    ensures Name(Align(line)) == Name(line) && HasMessage(Align(line)) == HasMessage(line)
    ensures Message(Align(line)) == Message(line)
    ensures IsFailure(line) && |Name(line)| <= DEFAULT_ALIGNMENT ==> |Head(Align(line))| == DEFAULT_ALIGNMENT + 1
    ensures Align(Align(line)) == Align(line)
  {
    if IsFailure(line) {
      NameStripped(line);
      LeadParts(Name(line), Message(line));
      LStripTwice(line[|Head(line)| + 1..]);
    }
  }

  /** An aligned failure is its name, blanks up to column 114, and its message after " # ". */
  lemma AlignExact(before: string, name: string, after: string, gap: string, m: string)
    requires '#' !in before + name + after && AllSpace(before) && AllSpace(after) && AllSpace(gap)
    requires name != "" && !IsSpace(name[0]) && !IsSpace(name[|name| - 1])
    requires m != "" ==> !IsSpace(m[0])
    ensures var r := Align((before + name + after) + ("#" + (gap + m)));
      var k := if |name| < 114 then 114 else |name|;
      && |r| == k + 3 + |m| && r[..|name|] == name && r[k..k + 3] == " # " && r[k + 3..] == m
      && forall j :: |name| <= j < k ==> r[j] == ' '
  {
    PartsExact(before, name, after, gap, m);
    LeadExact(name);
  }

  lemma LeadExact(name: string)
    ensures var r, k := Lead(name), if |name| < 114 then 114 else |name|;
      && |r| == k + 3 && r[..|name|] == name && r[k..] == " # "
      && forall j :: |name| <= j < k ==> r[j] == ' '
  {
  }

  /** Every other line is left as it is. */
  lemma AlignLeaves(line: string)
    requires !HasMessage(line) || AllSpace(Head(line))
    ensures Align(line) == line
  {
    if AllSpace(Head(line)) { LStripBlank(Head(line)); }
  }

  // ----- whole files

  /** A failure with a blank message: stripping the message takes the line break with it. */
  predicate LosesBreak(line: string) {
    IsFailure(line) && Message(line) == ""
  }

  lemma AlignIsLine(line: string)
    requires IsLine(line)
    ensures IsLine(Align(line))
    ensures EndsLine(Align(line)) <==> EndsLine(line) && !LosesBreak(line)
  {
    if IsFailure(line) {
      LeadHasNoBreak(line);
      MessageEndsLine(line);
      LeadThenMessage(Lead(Name(line)), Message(line));
    }
  }

  lemma LeadThenMessage(lead: string, m: string)
    requires lead != "" && forall i :: 0 <= i < |lead| ==> !IsBreak(lead[i])
    requires m == "" || IsLine(m)
    ensures IsLine(lead + m) && (EndsLine(lead + m) <==> EndsLine(m))
  {
  }

  /** The message is the end of the line. */
  lemma MessageEndsLine(line: string)
    requires IsLine(line) && HasMessage(line)
    ensures Message(line) != "" ==> IsLine(Message(line)) && (EndsLine(Message(line)) <==> EndsLine(line))
  {
    var m := Message(line);
    var before := LStripParts(line[|Head(line)| + 1..]);
    var k := |line| - |m|;
    assert line[k..] == m;
  }

  lemma LeadHasNoBreak(line: string)
    requires IsLine(line) && IsFailure(line)
    ensures forall i :: 0 <= i < |Lead(Name(line))| ==> !IsBreak(Lead(Name(line))[i])
  {
    var b, a := StripParts(Head(line));
    var n := Name(line);
    forall i | 0 <= i < |n| ensures !IsBreak(n[i]) {
      assert line[|b| + i] == Head(line)[|b| + i] == n[i];
    }
  }

  function AlignAll(lines: seq<string>): (r: seq<string>)
    ensures |r| == |lines| && forall i :: 0 <= i < |lines| ==> r[i] == Align(lines[i])
  {
    if lines == [] then [] else [Align(lines[0])] + AlignAll(lines[1..])
  }

  lemma {:induction false} ConcatAligned(lines: seq<string>)
    ensures Concat(AlignAll(lines)) == Aligned(lines)
  {
    if lines != [] {
      ConcatAligned(lines[1..]);
      assert AlignAll(lines)[1..] == AlignAll(lines[1..]);
    }
  }

  /** The pass keeps the file's lines apart exactly when no failure but a last one has a blank
      message. */
  lemma KeepsLines(text: string)
    ensures var lines := SplitLines(text);
      SplitLines(Aligned(lines)) == AlignAll(lines) <==> forall i :: 0 <= i < |lines| - 1 ==> !LosesBreak(lines[i])
  {
    var lines := SplitLines(text);
    SplitGivesLines(text);
    ConcatAligned(lines);
    LinesRoundTrip(AlignAll(lines));
    forall i | 0 <= i < |lines|
      ensures IsLine(AlignAll(lines)[i])
      ensures EndsLine(AlignAll(lines)[i]) <==> EndsLine(lines[i]) && !LosesBreak(lines[i])
    {
      AlignIsLine(lines[i]);
    }
    if forall i :: 0 <= i < |lines| - 1 ==> !LosesBreak(lines[i]) {
      assert AreLines(AlignAll(lines));
    }
  }

  // ----- a second alignment

  /** How many of the lines the first line the pass writes is made of. */
  function GroupSize(lines: seq<string>): (k: nat)
    ensures lines != [] ==> 1 <= k <= |lines|
  {
    if lines == [] then 0
    else if LosesBreak(lines[0]) && |lines| > 1 then 1 + GroupSize(lines[1..]) else 1
  }

  /** Whenever a failure has run into the line after it, that line does not begin with white space. */
  predicate Steady(lines: seq<string>)
    decreases |lines|
  {
    lines == [] ||
    (&& (LosesBreak(lines[0]) && |lines| > 1 ==> Align(lines[1]) == "" || !IsSpace(Align(lines[1])[0]))
     && Steady(lines[GroupSize(lines)..]))
  }

  lemma AreLinesFrom(lines: seq<string>, k: nat)
    requires AreLines(lines) && k <= |lines|
    ensures AreLines(lines[k..])
  {
    var t := lines[k..];
    forall i | 0 <= i < |t| ensures IsLine(t[i]) && (i < |t| - 1 ==> EndsLine(t[i])) {
      assert t[i] == lines[k + i];
    }
  }

  lemma JoinedIsLine(a: string, more: string)
    requires IsLine(a) && !EndsLine(a) && IsLine(more)
    ensures IsLine(a + more) && (EndsLine(a + more) <==> EndsLine(more))
  {
  }

  /** The pass writes the lines of the first group as one line, then the others. */
  lemma {:induction false} FirstGroup(lines: seq<string>) returns (joined: string)
    requires AreLines(lines) && lines != []
    ensures Aligned(lines) == joined + Aligned(lines[GroupSize(lines)..])
    ensures SplitLines(Aligned(lines)) == [joined] + SplitLines(Aligned(lines[GroupSize(lines)..]))
    ensures IsLine(joined) && (EndsLine(joined) || Aligned(lines[GroupSize(lines)..]) == "")
    ensures Align(lines[0]) <= joined
    ensures GroupSize(lines) == 1 ==> joined == Align(lines[0])
    ensures GroupSize(lines) > 1 ==>
      (&& LosesBreak(lines[0]) && |lines| > 1 && Align(lines[1]) != "" && |joined| > |Align(lines[0])|
       && joined[|Align(lines[0])|] == Align(lines[1])[0])
  {
    var k := GroupSize(lines);
    AlignIsLine(lines[0]);
    if LosesBreak(lines[0]) && |lines| > 1 {
      AreLinesFrom(lines, 1);
      AlignIsLine(lines[1]);
      var more := FirstGroup(lines[1..]);
      joined := Align(lines[0]) + more;
      JoinedIsLine(Align(lines[0]), more);
      JoinedText(lines, more);
    } else {
      joined := Align(lines[0]);
    }
    FirstLine(joined, Aligned(lines[k..]));
  }

  lemma JoinedText(lines: seq<string>, more: string)
    requires |lines| > 1 && LosesBreak(lines[0])
    requires Aligned(lines[1..]) == more + Aligned(lines[1..][GroupSize(lines[1..])..])
    ensures lines[1..][GroupSize(lines[1..])..] == lines[GroupSize(lines)..]
    ensures Aligned(lines) == Align(lines[0]) + more + Aligned(lines[GroupSize(lines)..])
  {
    var k := GroupSize(lines[1..]);
    assert lines[1..][k..] == lines[k + 1..];
    Regroup(Align(lines[0]), more, Aligned(lines[k + 1..]));
  }

  /** Aligning such a line again keeps it, or takes out the white space where it was joined. */
  lemma AlignJoined(first: string, joined: string)
    requires LosesBreak(first) && Align(first) <= joined && |joined| > |Align(first)|
    ensures if IsSpace(joined[|Align(first)|]) then |Align(joined)| < |joined| else Align(joined) == joined
  {
    var lead := Lead(Name(first));
    var rest := joined[|Align(first)|..];
    assert Align(first) == lead;
    assert joined == lead + rest;
    assert Align(joined) == lead + LStrip(rest) by {
      NameStripped(first);
      LeadParts(Name(first), rest);
    }
    StripsSpace(rest);
  }

  lemma StripsSpace(s: string)
    requires s != ""
    ensures if IsSpace(s[0]) then |LStrip(s)| < |s| else LStrip(s) == s
  {
  }

  lemma SameAfter(a: string, x: string, y: string)
    ensures a + x == a + y <==> x == y
  {
    if a + x == a + y {
      assert x == (a + x)[|a|..] && y == (a + y)[|a|..];
    }
  }

  /** Aligning the output again changes nothing exactly when it is steady, and never adds to it. */
  lemma {:induction false} AgainExactly(lines: seq<string>)
    requires AreLines(lines)
    ensures Aligned(SplitLines(Aligned(lines))) == Aligned(lines) <==> Steady(lines)
    ensures |Aligned(SplitLines(Aligned(lines)))| <= |Aligned(lines)|
    decreases |lines|
  {
    if lines != [] {
      var rest := lines[GroupSize(lines)..];
      var joined := FirstGroup(lines);
      AreLinesFrom(lines, GroupSize(lines));
      AgainExactly(rest);
      var again := Aligned(SplitLines(Aligned(rest)));
      assert Aligned(SplitLines(Aligned(lines))) == Align(joined) + again by {
        assert ([joined] + SplitLines(Aligned(rest)))[1..] == SplitLines(Aligned(rest));
      }
      SameAfter(joined, again, Aligned(rest));
      if GroupSize(lines) == 1 {
        AlignKeeps(lines[0]);
      } else {
        AlignJoined(lines[0], joined);
      }
    }
  }

  /** Aligning a file twice is aligning it once, exactly when it is steady; when every failure
      has a message it is. */
  lemma AlignTwice(text: string)
    ensures var out := Aligned(SplitLines(text));
      Aligned(SplitLines(out)) == out <==> Steady(SplitLines(text))
    ensures (forall i :: 0 <= i < |SplitLines(text)| ==> !LosesBreak(SplitLines(text)[i])) ==> Steady(SplitLines(text))
  {
    SplitGivesLines(text);
    AgainExactly(SplitLines(text));
    if forall i :: 0 <= i < |SplitLines(text)| ==> !LosesBreak(SplitLines(text)[i]) {
      SteadyWithMessages(SplitLines(text));
    }
  }

  lemma {:induction false} SteadyWithMessages(lines: seq<string>)
    requires forall i :: 0 <= i < |lines| ==> !LosesBreak(lines[i])
    ensures Steady(lines)
  {
    if lines != [] { SteadyWithMessages(lines[1..]); }
  }

  /** A failure without a message, then a blank line: the second alignment changes the file. */
  lemma NotSteady(text: string)
    requires text == "A #\n\n"
    ensures var out := Aligned(SplitLines(text)); Aligned(SplitLines(out)) != out
  {
    var lines := ["A #\n", "\n"];
    assert SplitLines(text) == lines by { TwoLines(lines, text); }
    assert LosesBreak(lines[0]) by { EmptyMessage(lines[0]); }
    assert Align(lines[1]) == "\n" by { BlankLine(lines[1]); }
    assert !Steady(lines);
    AlignTwice(text);
  }

  lemma TwoLines(lines: seq<string>, text: string)
    requires |lines| == 2 && IsLine(lines[0]) && EndsLine(lines[0]) && IsLine(lines[1]) && text == lines[0] + lines[1]
    ensures SplitLines(text) == lines
  {
    assert lines[1..] == [lines[1]] && lines[1..][1..] == [];
    assert Concat(lines[1..]) == lines[1] + "" == lines[1];
    LinesRoundTrip(lines);
  }

  lemma EmptyMessage(line: string)
    requires line == "A #\n"
    ensures LosesBreak(line)
  {
    assert line == "A " + "#\n";
    HeadExact("A ", "#\n");
    assert Name(line) == "A" by { StripGap("A", " "); assert "A" + " " == "A "; }
    assert line[|Head(line)| + 1..] == "\n";
    LStripBlank("\n");
  }

  lemma BlankLine(line: string)
    requires line == "\n"
    ensures Align(line) == line
  {
    HeadExact(line, "");
    assert line + "" == line;
  }
}
