/** Python's strings as src/conformance/update_failure_list.py uses them: order, white space,
    lines, and the name and message of a line of a failure list. */
module FailureListText {

  // ----- order by code point

  predicate Below(a: string, b: string) {
    b != "" && (a == "" || a[0] < b[0] || (a[0] == b[0] && Below(a[1..], b[1..])))
  }

  predicate AtMost(a: string, b: string) {
    !Below(b, a)
  }

  lemma {:induction false} BelowTransitive(a: string, b: string, c: string)
    requires (Below(a, b) && AtMost(b, c)) || (AtMost(a, b) && Below(b, c))
    ensures Below(a, c)
  {
    if a != "" && b != "" && c != "" && a[0] == b[0] == c[0] {
      BelowTransitive(a[1..], b[1..], c[1..]);
    }
  }

  lemma {:induction false} BelowAsymmetric(a: string, b: string)
    requires Below(a, b)
    ensures AtMost(a, b)
  {
    if a != "" && a[0] == b[0] {
      BelowAsymmetric(a[1..], b[1..]);
    }
  }

  lemma {:induction false} PrefixAtMost(a: string, r: string)
    ensures AtMost(a, a + r)
  {
    if a != "" {
      assert (a + r)[1..] == a[1..] + r;
      PrefixAtMost(a[1..], r);
    }
  }

  // ----- white space

  /** The characters Python's strip removes. */
  predicate IsSpace(c: char) {
    var n := c as int;
    0x09 <= n <= 0x0D || 0x1C <= n <= 0x20 || n == 0x85 || n == 0xA0 || n == 0x1680
    || 0x2000 <= n <= 0x200A || n == 0x2028 || n == 0x2029 || n == 0x202F || n == 0x205F || n == 0x3000
  }

  /** The characters that end a line; text mode has turned '\r' into '\n'. */
  predicate IsBreak(c: char) {
    var n := c as int;
    0x0A <= n <= 0x0C || 0x1C <= n <= 0x1E || n == 0x85 || n == 0x2028 || n == 0x2029
  }

  function LStrip(s: string): (r: string)
    ensures |r| <= |s|
    ensures r != "" ==> !IsSpace(r[0])
  {
    if s != "" && IsSpace(s[0]) then LStrip(s[1..]) else s
  }

  function RStrip(s: string): (r: string)
    ensures r <= s
    ensures r != "" ==> !IsSpace(r[|r| - 1])
  {
    if s != "" && IsSpace(s[|s| - 1]) then RStrip(s[..|s| - 1]) else s
  }

  function Strip(s: string): string {
    RStrip(LStrip(s))
  }

  predicate AllSpace(s: string) {
    forall i :: 0 <= i < |s| ==> IsSpace(s[i])
  }

  /** White space around a text that has none at its own ends is what strip removes. */
  lemma {:induction false} StripExact(before: string, s: string, after: string)
    requires AllSpace(before) && AllSpace(after)
    requires s != "" ==> !IsSpace(s[0]) && !IsSpace(s[|s| - 1])
    ensures Strip(before + s + after) == s
    decreases |before| + |after|
  {
    var t := before + s + after;
    if before != "" {
      assert t[1..] == before[1..] + s + after;
      StripExact(before[1..], s, after);
    } else if s != "" {
      assert t == s + after;
      RStripExact(s, after);
    } else {
      LStripBlank(after);
      assert t == after;
    }
  }

  lemma {:induction false} LStripBlank(s: string)
    requires AllSpace(s)
    ensures LStrip(s) == ""
  {
    if s != "" { LStripBlank(s[1..]); }
  }

  lemma {:induction false} RStripExact(s: string, after: string)
    requires s != "" && !IsSpace(s[|s| - 1]) && AllSpace(after)
    ensures RStrip(s + after) == s
  {
    if after == "" {
      assert s + after == s;
    } else {
      var n := |after| - 1;
      assert (s + after)[..|s + after| - 1] == s + after[..n];
      RStripExact(s, after[..n]);
    }
  }

  /** Every text is what strip keeps, between what it removes. */
  lemma StripParts(s: string) returns (before: string, after: string)
    ensures s == before + Strip(s) + after && AllSpace(before) && AllSpace(after)
    ensures Strip(s) != "" ==> !IsSpace(Strip(s)[0]) && !IsSpace(Strip(s)[|Strip(s)| - 1])
  {
    before := LStripParts(s);
    after := RStripParts(LStrip(s));
    if Strip(s) != "" { KeepsFirst(LStrip(s), Strip(s)); }
  }

  lemma KeepsFirst(l: string, r: string)
    requires r <= l && r != ""
    ensures r[0] == l[0]
  {
  }

  lemma {:induction false} LStripParts(s: string) returns (before: string)
    ensures s == before + LStrip(s) && AllSpace(before)
  {
    before := "";
    if s != "" && IsSpace(s[0]) {
      var rest := LStripParts(s[1..]);
      before := [s[0]] + rest;
      assert s == [s[0]] + s[1..];
    }
  }

  lemma {:induction false} RStripParts(s: string) returns (after: string)
    ensures s == RStrip(s) + after && AllSpace(after)
  {
    after := "";
    if s != "" && IsSpace(s[|s| - 1]) {
      var rest := RStripParts(s[..|s| - 1]);
      after := rest + [s[|s| - 1]];
      assert s == s[..|s| - 1] + [s[|s| - 1]];
    }
  }

  // ----- the parts of a line

  /** The text before the first '#'. */
  function Head(line: string): (r: string)
    ensures r <= line && '#' !in r && (r == line || line[|r|] == '#')
  {
    if line == "" || line[0] == '#' then "" else [line[0]] + Head(line[1..])
  }

  lemma {:induction false} HeadExact(h: string, rest: string)
    requires '#' !in h && (rest == "" || rest[0] == '#')
    ensures Head(h + rest) == h
  {
    if h != "" {
      assert (h + rest)[1..] == h[1..] + rest;
      HeadExact(h[1..], rest);
    }
  }

  /** The test's name: line.split('#')[0].strip(). */
  function Name(line: string): string {
    Strip(Head(line))
  }

  predicate HasMessage(line: string) {
    Head(line) != line
  }

  /** The failure message: line.split('#', 1)[1].lstrip(). */
  function Message(line: string): string {
    if HasMessage(line) then LStrip(line[|Head(line)| + 1..]) else ""
  }

  /** A line by its parts: what stands before the first '#', less white space at its ends, is the
      name; what follows it, less white space in front, is the message. */
  lemma PartsExact(before: string, name: string, after: string, gap: string, m: string)
    requires '#' !in before + name + after && AllSpace(before) && AllSpace(after) && AllSpace(gap)
    requires name != "" ==> !IsSpace(name[0]) && !IsSpace(name[|name| - 1])
    requires m != "" ==> !IsSpace(m[0])
    ensures var line := (before + name + after) + ("#" + (gap + m));
      HasMessage(line) && Name(line) == name && Message(line) == m
  {
    var h, rest := before + name + after, "#" + (gap + m);
    HeadExact(h, rest);
    StripExact(before, name, after);
    assert (h + rest)[|h| + 1..] == rest[1..] == gap + m;
    LStripExact(gap, m);
  }

  /** Without '#' all of the line is its name. */
  lemma NoMessage(before: string, name: string, after: string)
    requires '#' !in before + name + after && AllSpace(before) && AllSpace(after)
    requires name != "" ==> !IsSpace(name[0]) && !IsSpace(name[|name| - 1])
    ensures var line := before + name + after;
      !HasMessage(line) && Name(line) == name && Message(line) == ""
  {
    var h := before + name + after;
    HeadExact(h, "");
    assert h + "" == h;
    StripExact(before, name, after);
  }

  lemma {:induction false} LStripExact(before: string, s: string)
    requires AllSpace(before) && (s != "" ==> !IsSpace(s[0]))
    ensures LStrip(before + s) == s
  {
    if before == "" {
      assert before + s == s;
    } else {
      assert (before + s)[1..] == before[1..] + s;
      LStripExact(before[1..], s);
    }
  }

  // ----- lines

  /** str.splitlines(True). */
  function SplitLines(text: string): (lines: seq<string>)
    ensures text == "" <==> lines == []
  {
    if text == "" then []
    else if IsBreak(text[0]) then [[text[0]]] + SplitLines(text[1..])
    else
      var rest := SplitLines(text[1..]);
      if rest == [] then [text] else [[text[0]] + rest[0]] + rest[1..]
  }

  function Concat(lines: seq<string>): string {
    if lines == [] then "" else lines[0] + Concat(lines[1..])
  }

  /** A line: not empty, with no line break before its last character. */
  predicate IsLine(line: string) {
    line != "" && forall i :: 0 <= i < |line| - 1 ==> !IsBreak(line[i])
  }

  predicate EndsLine(line: string) {
    line != "" && IsBreak(line[|line| - 1])
  }

  /** The lines of some text: all but the last end in a line break. */
  predicate AreLines(lines: seq<string>) {
    && (forall i :: 0 <= i < |lines| ==> IsLine(lines[i]))
    && (forall i :: 0 <= i < |lines| - 1 ==> EndsLine(lines[i]))
  }

  lemma {:induction false} SplitGivesLines(text: string)
    ensures AreLines(SplitLines(text)) && Concat(SplitLines(text)) == text
  {
    if text != "" {
      SplitGivesLines(text[1..]);
      assert text == [text[0]] + text[1..];
      if IsBreak(text[0]) {
        NewLine(text[0], SplitLines(text[1..]));
      } else if text[1..] != "" {
        LongerLine(text[0], SplitLines(text[1..]));
      }
    }
  }

  lemma NewLine(c: char, rest: seq<string>)
    requires IsBreak(c) && AreLines(rest)
    ensures AreLines([[c]] + rest) && Concat([[c]] + rest) == [c] + Concat(rest)
  {
    var lines := [[c]] + rest;
    assert lines[1..] == rest;
    forall i | 1 <= i < |lines| ensures IsLine(lines[i]) && (i < |lines| - 1 ==> EndsLine(lines[i])) {
      assert lines[i] == rest[i - 1];
    }
  }

  lemma LongerLine(c: char, rest: seq<string>)
    requires !IsBreak(c) && rest != [] && AreLines(rest)
    ensures AreLines([[c] + rest[0]] + rest[1..])
    ensures Concat([[c] + rest[0]] + rest[1..]) == [c] + Concat(rest)
  {
    var first := [c] + rest[0];
    var lines := [first] + rest[1..];
    LongerFirst(c, rest[0]);
    forall i | 1 <= i < |lines| ensures IsLine(lines[i]) && (i < |lines| - 1 ==> EndsLine(lines[i])) {
      assert lines[i] == rest[i];
    }
    LongerConcat(c, rest[0], rest[1..]);
    assert rest == [rest[0]] + rest[1..];
  }

  lemma LongerConcat(c: char, line: string, rest: seq<string>)
    ensures Concat([[c] + line] + rest) == [c] + Concat([line] + rest)
  {
    assert ([[c] + line] + rest)[1..] == rest && ([line] + rest)[1..] == rest;
    assert ([c] + line) + Concat(rest) == [c] + (line + Concat(rest));
  }

  lemma LongerFirst(c: char, line: string)
    requires !IsBreak(c) && IsLine(line)
    ensures IsLine([c] + line) && (EndsLine(line) ==> EndsLine([c] + line))
  {
  }

  /** Writing lines and reading them back gives the same lines exactly when each of them is one
      line and only the last may lack its line break. */
  lemma LinesRoundTrip(lines: seq<string>)
    ensures SplitLines(Concat(lines)) == lines <==> AreLines(lines)
  {
    if AreLines(lines) { LinesReadBack(lines); }
    SplitGivesLines(Concat(lines));
  }

  lemma {:induction false} LinesReadBack(lines: seq<string>)
    requires AreLines(lines)
    ensures SplitLines(Concat(lines)) == lines
  {
    if lines != [] {
      LinesReadBack(lines[1..]);
      FirstLine(lines[0], Concat(lines[1..]));
      if |lines| == 1 { assert lines[1..] == []; }
    }
  }

  lemma {:induction false} FirstLine(line: string, rest: string)
    requires IsLine(line) && (EndsLine(line) || rest == "")
    ensures SplitLines(line + rest) == [line] + SplitLines(rest)
  {
    var t := line + rest;
    if |line| == 1 {
      assert t[1..] == rest && line == [t[0]];
      if !IsBreak(t[0]) { assert t == line && SplitLines(t) == [line]; }
    } else {
      assert t[1..] == line[1..] + rest;
      FirstLine(line[1..], rest);
      assert line == [line[0]] + line[1..];
      assert SplitLines(t[1..])[1..] == SplitLines(rest);
    }
  }

  /** A line without its line break is read together with what follows it. */
  lemma {:induction false} OpenLine(line: string, rest: string)
    requires line != "" && rest != "" && forall i :: 0 <= i < |line| ==> !IsBreak(line[i])
    ensures |SplitLines(line + rest)| == |SplitLines(rest)|
  {
    var t := line + rest;
    assert t[1..] == line[1..] + rest;
    if |line| == 1 {
      assert t[1..] == rest;
    } else {
      OpenLine(line[1..], rest);
    }
  }

  /** Reading back never gives more lines than were written, and as many only when they are the
      lines of the text. */
  lemma {:induction false} NoMoreLines(lines: seq<string>)
    requires forall i :: 0 <= i < |lines| ==> IsLine(lines[i])
    ensures |SplitLines(Concat(lines))| <= |lines|
    ensures |SplitLines(Concat(lines))| == |lines| ==> AreLines(lines)
  {
    if lines != [] {
      var line, rest := lines[0], Concat(lines[1..]);
      NoMoreLines(lines[1..]);
      if EndsLine(line) || rest == "" {
        FirstLine(line, rest);
        if |SplitLines(rest)| == |lines[1..]| {
          forall i | 0 <= i < |lines| - 1 ensures EndsLine(lines[i]) {
            if i > 0 { assert EndsLine(lines[1..][i - 1]); }
          }
        }
      } else {
        OpenLine(line, rest);
      }
    }
  }
}
