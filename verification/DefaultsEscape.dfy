/** Embedding the edition defaults: placeholder replacement and the array encodings
    (src/editions/internal_defaults_escape.cc). */
module DefaultsEscape {
  import opened Common

  // ----- finding

  predicate At(s: string, p: string, i: int) {
    0 <= i && i + |p| <= |s| && s[i..i + |p|] == p
  }

  /** std::string::find: the first occurrence from `pos` on. */
  function Find(s: string, p: string, pos: nat): (r: Option<nat>)
    requires pos <= |s|
    ensures r.Some? ==> pos <= r.value && r.value + |p| <= |s|
    decreases |s| - pos
  {
    if At(s, p, pos) then Some(pos) else if pos == |s| then None else Find(s, p, pos + 1)
  }

  /** None when there is none, else the first there is. */
  lemma {:induction false} FindExact(s: string, p: string, pos: nat)
    requires pos <= |s|
    ensures var r := Find(s, p, pos);
      if r.None? then forall k :: pos <= k ==> !At(s, p, k)
      else At(s, p, r.value) && forall k :: pos <= k < r.value ==> !At(s, p, k)
    decreases |s| - pos
  {
    if !At(s, p, pos) && pos < |s| { FindExact(s, p, pos + 1); }
  }

  // ----- splitting and joining

  function Split(s: string, p: string): (parts: seq<string>)
    requires p != ""
    ensures parts != []
    decreases |s|
  {
    match Find(s, p, 0)
    case None => [s]
    case Some(i) => [s[..i]] + Split(s[i + |p|..], p)
  }

  function Join(parts: seq<string>, r: string): string
    requires parts != []
  {
    if |parts| == 1 then parts[0] else parts[0] + r + Join(parts[1..], r)
  }

  ghost predicate Absent(s: string, p: string) {
    forall k :: !At(s, p, k)
  }

  /** `p` occurs right after `part`, and nowhere sooner. */
  ghost predicate FirstAfter(part: string, p: string) {
    forall k :: k < |part| ==> !At(part + p, p, k)
  }

  /** The parts between the leftmost occurrences that do not overlap. */
  ghost predicate Leftmost(parts: seq<string>, p: string) {
    && parts != [] && Absent(parts[|parts| - 1], p)
    && forall i :: 0 <= i < |parts| - 1 ==> FirstAfter(parts[i], p)
  }

  lemma AtInPrefix(a: string, p: string, rest: string, k: int)
    requires k < |a|
    ensures At(a + p + rest, p, k) <==> At(a + p, p, k)
  {
    if 0 <= k { assert (a + p + rest)[k..k + |p|] == (a + p)[k..k + |p|]; }
  }

  lemma AtEnd(a: string, p: string, rest: string)
    ensures At(a + p + rest, p, |a|)
  {
    assert (a + p + rest)[|a|..|a| + |p|] == p;
  }

  lemma FirstPart(s: string, p: string, i: nat)
    requires Find(s, p, 0) == Some(i)
    ensures i + |p| <= |s| && s == s[..i] + p + s[i + |p|..] && FirstAfter(s[..i], p)
  {
    FindExact(s, p, 0);
    CutAt(s, p, i);
    NoneBefore(s, s[..i], p, s[i + |p|..]);
  }

  lemma CutAt(s: string, p: string, i: nat)
    requires At(s, p, i)
    ensures s == s[..i] + p + s[i + |p|..]
  {
  }

  lemma NoneBefore(s: string, part: string, p: string, rest: string)
    requires s == part + p + rest && forall k :: 0 <= k < |part| ==> !At(s, p, k)
    ensures FirstAfter(part, p)
  {
    forall k | k < |part| ensures !At(part + p, p, k) { AtInPrefix(part, p, rest, k); }
  }

  lemma NoPart(s: string, p: string)
    requires Find(s, p, 0).None?
    ensures Absent(s, p)
  {
    FindExact(s, p, 0);
  }

  /** Split gives exactly the parts between the leftmost occurrences. */
  lemma {:induction false} SplitIsLeftmost(s: string, p: string)
    requires p != ""
    ensures Leftmost(Split(s, p), p) && Join(Split(s, p), p) == s
    decreases |s|
  {
    var f := Find(s, p, 0);
    if f.None? {
      NoPart(s, p);
    } else {
      FirstPart(s, p, f.value);
      var rest := s[f.value + |p|..];
      SplitIsLeftmost(rest, p);
      LeftmostCons(s[..f.value], Split(rest, p), p);
    }
  }

  lemma LeftmostCons(part: string, parts: seq<string>, p: string)
    requires FirstAfter(part, p) && Leftmost(parts, p)
    ensures Leftmost([part] + parts, p) && Join([part] + parts, p) == part + p + Join(parts, p)
  {
    var all := [part] + parts;
    assert all[1..] == parts;
    forall i | 0 <= i < |all| - 1 ensures FirstAfter(all[i], p) {
      if i > 0 { assert all[i] == parts[i - 1]; }
    }
  }

  lemma FindFirst(s: string, part: string, p: string, rest: string)
    requires FirstAfter(part, p) && s == part + p + rest
    ensures Find(s, p, 0) == Some(|part|) && s[..|part|] == part && s[|part| + |p|..] == rest
  {
    FindExact(s, p, 0);
    AtEnd(part, p, rest);
    forall k | 0 <= k < |part| ensures !At(s, p, k) { AtInPrefix(part, p, rest, k); }
    var f := Find(s, p, 0).value;
    assert !(f < |part|) && !(f > |part|);
  }

  /** And they are the only such parts. */
  lemma {:induction false} SplitUnique(parts: seq<string>, s: string, p: string)
    requires p != "" && Leftmost(parts, p) && Join(parts, p) == s
    ensures parts == Split(s, p)
    decreases |parts|
  {
    if |parts| == 1 {
      FindExact(s, p, 0);
      assert Absent(s, p);
    } else {
      var part, tail := parts[0], parts[1..];
      var rest := Join(tail, p);
      assert FirstAfter(part, p);
      FindFirst(s, part, p, rest);
      LeftmostTail(parts, p);
      SplitUnique(tail, rest, p);
      assert parts == [part] + tail;
    }
  }

  lemma LeftmostTail(parts: seq<string>, p: string)
    requires |parts| > 1 && Leftmost(parts, p)
    ensures Leftmost(parts[1..], p)
  {
    forall i | 0 <= i < |parts[1..]| - 1 ensures FirstAfter(parts[1..][i], p) {
      assert FirstAfter(parts[i + 1], p);
    }
  }

  // ----- replacing

  /** Parts already joined and parts to come. */
  lemma ReplaceStep(done: string, rest: string, p: string, r: string, i: nat)
    requires p != "" && Find(rest, p, 0) == Some(i)
    ensures (done + rest[..i] + r) + Join(Split(rest[i + |p|..], p), r) == done + Join(Split(rest, p), r)
  {
    var parts := Split(rest[i + |p|..], p);
    TailOf(rest[..i], parts);
    assert Join(Split(rest, p), r) == rest[..i] + r + Join(parts, r);
    Regroup(done, rest[..i], r);
    Regroup(done, rest[..i] + r, Join(parts, r));
  }

  lemma AtShifted(done: string, rest: string, p: string, k: nat)
    ensures At(done + rest, p, |done| + k) <==> At(rest, p, k)
  {
    if k + |p| <= |rest| {
      assert (done + rest)[|done| + k..|done| + k + |p|] == rest[k..k + |p|];
    }
  }

  lemma {:induction false} FindShifted(done: string, rest: string, p: string, k: nat)
    requires k <= |rest|
    ensures var f := Find(done + rest, p, |done| + k);
      Find(rest, p, k) == if f.None? then None else Some(f.value - |done|)
    decreases |rest| - k
  {
    AtShifted(done, rest, p, k);
    if !At(rest, p, k) && k < |rest| { FindShifted(done, rest, p, k + 1); }
  }

  lemma ReplaceAt(out: string, at: nat, done: string, rest: string, i: nat, n: nat, r: string)
    requires out == done + rest && at == |done| + i && i + n <= |rest|
    ensures out[..at] == done + rest[..i] && out[at + n..] == rest[i + n..]
  {
  }

  lemma ReplaceRound(out: string, pos: nat, at: nat, done: string, rest: string, p: string, r: string)
    returns (done': string, rest': string)
    requires p != "" && out == done + rest && pos == |done| && Find(out, p, pos) == Some(at)
    ensures at + |p| <= |out| && out[..at] + r + out[at + |p|..] == done' + rest'
    ensures done' + Join(Split(rest', p), r) == done + Join(Split(rest, p), r)
    ensures |done'| == at + |r| && |rest'| < |rest|
  {
    var i := at - pos;
    assert Find(rest, p, 0) == Some(i) by { FindShifted(done, rest, p, 0); }
    done', rest' := done + rest[..i] + r, rest[i + |p|..];
    assert done' + Join(Split(rest', p), r) == done + Join(Split(rest, p), r) by { ReplaceStep(done, rest, p, r, i); }
    assert out[..at] + r + out[at + |p|..] == done' + rest' by { ReplaceAt(out, at, done, rest, i, |p|, r); }
  }

  lemma NothingLeft(done: string, rest: string, p: string, r: string)
    requires p != "" && Find(done + rest, p, |done|).None?
    ensures Join(Split(rest, p), r) == rest
  {
    FindShifted(done, rest, p, 0);
  }

  lemma EmptyFirst(s: string)
    ensures "" + s == s
  {
  }

  /** One round of the loop on the text and the position; None when nothing is found. */
  function OneRound(s: (string, nat), p: string, r: string): (t: Option<(string, nat)>)
    requires s.1 <= |s.0|
    ensures t.Some? ==> t.value.1 <= |t.value.0|
  {
    match Find(s.0, p, s.1)
    case None => None
    case Some(at) => Some((s.0[..at] + r + s.0[at + |p|..], at + |r|))
  }

  /** The text and position after some rounds of the loop, if it is still going. */
  function Rounds(content: string, p: string, r: string, n: nat): (s: Option<(string, nat)>)
    ensures s.Some? ==> s.value.1 <= |s.value.0|
  {
    if n == 0 then Some((content, 0)) else
      match Rounds(content, p, r, n - 1)
      case None => None
      case Some(s) => OneRound(s, p, r)
  }

  /** With an empty placeholder the loop goes on for ever. */
  lemma {:induction false} EmptyPlaceholderNeverStops(content: string, r: string, n: nat)
    ensures Rounds(content, "", r, n).Some?
    ensures var (out, pos) := Rounds(content, "", r, n).value; |out| - pos == |content|
  {
    if n > 0 {
      EmptyPlaceholderNeverStops(content, r, n - 1);
      var (out, pos) := Rounds(content, "", r, n - 1).value;
      assert out[pos..pos] == "";
    }
  }

  /** Each round leaves less text to search, by the placeholder at least. */
  lemma {:induction false} RoundsShrink(content: string, p: string, r: string, n: nat)
    requires p != "" && Rounds(content, p, r, n).Some?
    ensures var (out, pos) := Rounds(content, p, r, n).value; |out| - pos + n <= |content|
  {
    if n > 0 { RoundsShrink(content, p, r, n - 1); }
  }

  /** The loop ends exactly when the placeholder is not empty. */
  lemma RoundsEndExactly(content: string, p: string, r: string)
    ensures (exists n: nat :: Rounds(content, p, r, n).None?) <==> p != ""
  {
    if p == "" {
      forall n: nat ensures Rounds(content, p, r, n).Some? { EmptyPlaceholderNeverStops(content, r, n); }
    } else {
      var n := |content| + 1;
      if Rounds(content, p, r, n).Some? { RoundsShrink(content, p, r, n); }
      assert Rounds(content, p, r, n).None?;
    }
  }

  /** At every round the text already searched is final, and the rest is text of the content. */
  lemma {:induction false} RoundsAgree(content: string, p: string, r: string, n: nat)
    returns (done: string, rest: string)
    requires p != "" && Rounds(content, p, r, n).Some?
    ensures Rounds(content, p, r, n) == Some((done + rest, |done|))
    ensures done + Join(Split(rest, p), r) == Join(Split(content, p), r)
  {
    if n == 0 {
      done, rest := "", content;
      EmptyFirst(content);
      EmptyFirst(Join(Split(content, p), r));
    } else {
      var before, after := RoundsAgree(content, p, r, n - 1);
      done, rest := RoundAgrees(before, after, p, r);
    }
  }

  lemma RoundAgrees(before: string, after: string, p: string, r: string) returns (done: string, rest: string)
    requires p != "" && OneRound((before + after, |before|), p, r).Some?
    ensures OneRound((before + after, |before|), p, r) == Some((done + rest, |done|))
    ensures done + Join(Split(rest, p), r) == before + Join(Split(after, p), r)
  {
    var at := Find(before + after, p, |before|).value;
    done, rest := ReplaceRound(before + after, |before|, at, before, after, p, r);
  }

  /** And the text it ends with is the parts of the content joined with the replacement. */
  lemma RoundsResult(content: string, p: string, r: string, n: nat)
    requires p != "" && Rounds(content, p, r, n).Some? && Rounds(content, p, r, n + 1).None?
    ensures Rounds(content, p, r, n).value.0 == Join(Split(content, p), r)
  {
    var done, rest := RoundsAgree(content, p, r, n);
    NothingLeft(done, rest, p, r);
  }

  lemma NextRound(content: string, p: string, r: string, n: nat, out: string, pos: nat, at: nat)
    requires pos <= |out| && Rounds(content, p, r, n) == Some((out, pos)) && Find(out, p, pos) == Some(at)
    ensures Rounds(content, p, r, n + 1) == Some((out[..at] + r + out[at + |p|..], at + |r|))
  {
  }

  /** replace_placeholder: the text it has inserted is not searched again. */
  method ReplacePlaceholder(content: string, placeholder: string, replacement: string) returns (out: string)
    requires placeholder != ""
    ensures out == Join(Split(content, placeholder), replacement)
  {
    out := content;
    var pos := 0;
    ghost var n: nat := 0;
    var next := Find(out, placeholder, pos);
    while next.Some?
      invariant 0 <= pos <= |out| && next == Find(out, placeholder, pos)
      invariant Rounds(content, placeholder, replacement, n) == Some((out, pos))
      decreases |out| - pos
    {
      NextRound(content, placeholder, replacement, n, out, pos, next.value);
      pos := next.value;
      out := out[..pos] + replacement + out[pos + |placeholder|..];
      pos := pos + |replacement|;
      next := Find(out, placeholder, pos);
      n := n + 1;
    }
    RoundsResult(content, placeholder, replacement, n);
  }

  // ----- C initialisers

  function DigitValue(c: char): (v: int)
    ensures -1 <= v < 16
  {
    if '0' <= c <= '9' then c as int - '0' as int
    else if 'a' <= c <= 'f' then c as int - 'a' as int + 10
    else if 'A' <= c <= 'F' then c as int - 'A' as int + 10
    else -1
  }

  predicate IsDigit(c: char, base: int) {
    0 <= DigitValue(c) < base
  }

  /** The longest run of digits in front of `t`, and what follows it. */
  function ReadDigits(t: string, base: int, acc: int): (r: (int, string))
    ensures |r.1| <= |t|
  {
    if t != "" && IsDigit(t[0], base) then ReadDigits(t[1..], base, acc * base + DigitValue(t[0])) else (acc, t)
  }

  /** An integer literal: "0x" and hexadecimal digits, or decimal digits. */
  function ReadNumber(t: string): (r: Option<(int, string)>)
    ensures r.Some? ==> |r.value.1| < |t|
  {
    if |t| > 2 && t[..2] == "0x" && IsDigit(t[2], 16) then Some(ReadDigits(t[2..], 16, 0))
    else if t != "" && IsDigit(t[0], 10) then Some(ReadDigits(t[1..], 10, DigitValue(t[0])))
    else None
  }

  function SkipBlanks(t: string): (r: string)
    ensures |r| <= |t|
  {
    if t != "" && (t[0] == ' ' || t[0] == '\n') then SkipBlanks(t[1..]) else t
  }

  /** Literals separated by commas. */
  function ParseItems(t: string): Option<seq<int>>
    decreases |t|
  {
    match ReadNumber(SkipBlanks(t))
    case None => None
    case Some((v, more)) =>
      var rest := SkipBlanks(more);
      if rest == "" then Some([v])
      else if rest[0] != ',' then None
      else
        match ParseItems(rest[1..])
        case None => None
        case Some(vs) => Some([v] + vs)
  }

  function ParseArray(t: string): Option<seq<int>> {
    if SkipBlanks(t) == "" then Some([]) else ParseItems(t)
  }

  // ----- the encoders

  const HEX := "0123456789abcdef"

  /** absl::Hex(c, absl::kZeroPad2). */
  function Hex2(c: Byte): string {
    [HEX[c / 16], HEX[c % 16]]
  }

  function Decimal(c: Byte): string {
    (if c < 10 then "" else Decimal(c / 10)) + [HEX[c % 10]]
  }

  function HexPrefix(count: nat): string {
    if count % 12 != 0 then ", 0x" else if count == 0 then "  0x" else ",\n  0x"
  }

  function HexText(data: seq<Byte>, count: nat): string {
    if data == [] then "" else HexPrefix(count) + Hex2(data[0]) + HexText(data[1..], count + 1)
  }

  function DecimalText(data: seq<Byte>, first: bool): string {
    if data == [] then "" else (if first then "" else ", ") + Decimal(data[0]) + DecimalText(data[1..], false)
  }

  /** The lower-case digit for a value. */
  function Lower(d: int): char
    requires 0 <= d < 16
  {
    if d < 10 then ('0' as int + d) as char else ('a' as int + (d - 10)) as char
  }

  lemma DigitIs(d: int)
    requires 0 <= d < 16
    ensures HEX[d] == Lower(d)
  {
  }

  /** One byte alone, and one more: a comma and a blank before it, or a new line of twelve; two
      lower-case digits. */
  lemma HexTextExact(data: seq<Byte>, c: Byte, num: string)
    requires num == [Lower(c / 16), Lower(c % 16)]
    ensures HexText([], 0) == "" && HexText([c], 0) == "  0x" + num
    ensures data != [] ==>
      HexText(data + [c], 0) == HexText(data, 0) + ((if |data| % 12 == 0 then ",\n  0x" else ", 0x") + num)
  {
    HexDigits(c);
    HexOne(c);
    if data != [] { HexSnoc(data, 0, c); }
  }

  lemma HexDigits(c: Byte)
    ensures Hex2(c) == [Lower(c / 16), Lower(c % 16)]
  {
    DigitIs(c / 16);
    DigitIs(c % 16);
  }

  lemma HexOne(c: Byte)
    ensures HexText([c], 0) == "  0x" + Hex2(c)
  {
    HexCons([c], 0);
    assert [c][1..] == [] && HexText([], 1) == "";
  }

  lemma {:induction false} HexSnoc(data: seq<Byte>, count: nat, c: Byte)
    ensures HexText(data + [c], count) == HexText(data, count) + (HexPrefix(count + |data|) + Hex2(c))
  {
    var last := HexPrefix(count + |data|) + Hex2(c);
    HexCons(data + [c], count);
    if data == [] {
      assert [] + [c] == [c] && [c][1..] == [];
      assert HexText([], count + 1) == "" && last + "" == "" + last;
    } else {
      assert (data + [c])[1..] == data[1..] + [c] && (data + [c])[0] == data[0];
      HexSnoc(data[1..], count + 1, c);
      HexCons(data, count);
      Regroup(HexPrefix(count) + Hex2(data[0]), HexText(data[1..], count + 1), last);
    }
  }

  /** Decimal digits without zeros in front. */
  lemma DecimalExact(c: Byte, h: nat, t: nat, u: nat)
    requires c == 100 * h + 10 * t + u && h < 10 && t < 10 && u < 10
    ensures h == 0 && t == 0 ==> Decimal(c) == [Lower(u)]
    ensures h == 0 && t > 0 ==> Decimal(c) == [Lower(t), Lower(u)]
    ensures h > 0 ==> Decimal(c) == [Lower(h), Lower(t), Lower(u)]
  {
    if h > 0 {
      TwoDigits(10 * h + t, h, t);
      OneMore(10 * h + t, c, Lower(h), Lower(t), u);
    } else if t > 0 {
      TwoDigits(c, t, u);
    } else {
      OneDigit(u);
    }
  }

  lemma OneMore(n: nat, c: nat, x: char, y: char, u: nat)
    requires 0 < n && u < 10 && c == 10 * n + u && c < 256 && Decimal(n) == [x, y]
    ensures Decimal(c) == [x, y, Lower(u)]
  {
    DecimalLast(n, c, u);
    assert [x, y] + [Lower(u)] == [x, y, Lower(u)];
  }

  lemma TwoDigits(c: nat, t: nat, u: nat)
    requires 0 < t < 10 && u < 10 && c == 10 * t + u
    ensures Decimal(c) == [Lower(t), Lower(u)]
  {
    DecimalLast(t, c, u);
    OneDigit(t);
  }

  lemma OneDigit(u: nat)
    requires u < 10
    ensures Decimal(u) == [Lower(u)]
  {
    DigitIs(u);
    assert Decimal(u) == "" + [HEX[u]];
  }

  lemma DecimalLast(n: nat, c: nat, u: nat)
    requires 0 < n && u < 10 && c == 10 * n + u && c < 256
    ensures Decimal(c) == Decimal(n) + [Lower(u)]
  {
    assert c / 10 == n && c % 10 == u;
    DigitIs(u);
  }

  lemma DecimalTextExact(data: seq<Byte>, c: Byte)
    ensures DecimalText([], true) == "" && DecimalText([c], true) == Decimal(c)
    ensures data != [] ==> DecimalText(data + [c], true) == DecimalText(data, true) + (", " + Decimal(c))
  {
    DecimalSnoc(data, true, c);
    assert [c][1..] == [] && DecimalText([], false) == "";
  }

  lemma {:induction false} DecimalSnoc(data: seq<Byte>, first: bool, c: Byte)
    ensures DecimalText(data + [c], first) ==
            DecimalText(data, first) + ((if first && data == [] then "" else ", ") + Decimal(c))
  {
    if data == [] {
      assert [] + [c] == [c] && [c][1..] == [];
    } else {
      assert (data + [c])[1..] == data[1..] + [c];
      DecimalSnoc(data[1..], false, c);
      Regroup((if first then "" else ", ") + Decimal(data[0]), DecimalText(data[1..], false), ", " + Decimal(c));
    }
  }

  // ----- reading the arrays back

  predicate Blank(t: string) {
    forall i :: 0 <= i < |t| ==> t[i] == ' ' || t[i] == '\n'
  }

  lemma {:induction false} SkipsBlanks(pre: string, t: string)
    requires Blank(pre) && t != "" && t[0] != ' ' && t[0] != '\n'
    ensures SkipBlanks(pre + t) == t
  {
    if pre == "" {
      assert pre + t == t;
    } else {
      assert (pre + t)[1..] == pre[1..] + t;
      SkipsBlanks(pre[1..], t);
    }
  }

  /** What may follow a number: the end, or a comma and more items. */
  predicate AfterItem(more: string) {
    more == "" || more[0] == ','
  }

  lemma ParseStep(pre: string, num: string, v: int, more: string)
    requires Blank(pre) && num != "" && num[0] != ' ' && num[0] != '\n' && AfterItem(more)
    requires ReadNumber(num + more) == Some((v, more))
    ensures ParseItems(pre + num + more) ==
      if more == "" then Some([v])
      else if ParseItems(more[1..]).None? then None else Some([v] + ParseItems(more[1..]).value)
  {
    assert pre + num + more == pre + (num + more);
    SkipsBlanks(pre, num + more);
  }

  lemma ReadTwo(a: char, b: char, more: string)
    requires IsDigit(a, 16) && IsDigit(b, 16) && AfterItem(more)
    ensures ReadDigits([a] + ([b] + more), 16, 0) == (16 * DigitValue(a) + DigitValue(b), more)
  {
    TailOf(a, [b] + more);
    TailOf(b, more);
    assert ReadDigits([b] + more, 16, DigitValue(a)) == ReadDigits(more, 16, 16 * DigitValue(a) + DigitValue(b));
  }

  lemma HexItem(c: Byte, more: string)
    requires AfterItem(more)
    ensures ReadNumber("0x" + Hex2(c) + more) == Some((c, more))
  {
    var a, b := HEX[c / 16], HEX[c % 16];
    HexDigit(c / 16);
    HexDigit(c % 16);
    ReadTwo(a, b, more);
    AfterPrefix(a, b, more);
  }

  lemma HexDigit(d: int)
    requires 0 <= d < 16
    ensures DigitValue(HEX[d]) == d
  {
  }

  lemma AfterPrefix(a: char, b: char, more: string)
    ensures var t := "0x" + [a, b] + more;
      t[..2] == "0x" && t[2] == a && t[2..] == [a] + ([b] + more)
  {
  }

  lemma {:induction false} DecimalRead(c: Byte, more: string)
    ensures ReadDigits(Decimal(c) + more, 10, 0) == ReadDigits(more, 10, c)
    ensures Decimal(c) != "" && IsDigit(Decimal(c)[0], 10)
    ensures |Decimal(c)| > 1 ==> IsDigit(Decimal(c)[1], 10)
  {
    var d := HEX[c % 10];
    HexDigit(c % 10);
    TailOf(d, more);
    if c < 10 {
      assert Decimal(c) == [d];
    } else {
      DecimalRead(c / 10, [d] + more);
      Regroup(Decimal(c / 10), [d], more);
    }
  }

  lemma DecimalItem(c: Byte, more: string)
    requires AfterItem(more)
    ensures ReadNumber(Decimal(c) + more) == Some((c, more))
  {
    var t := Decimal(c) + more;
    DecimalRead(c, more);
    assert t[0] == Decimal(c)[0];
    assert |t| > 2 ==> t[1] != 'x' && t[..2][1] == t[1];
  }

  lemma FirstAndRest(data: seq<int>)
    requires data != []
    ensures data == [data[0]] + data[1..] && (data[1..] == [] ==> data == [data[0]])
  {
  }

  lemma {:induction false} HexFrom(data: seq<Byte>, count: nat, pre: string)
    requires data != [] && Blank(pre)
    ensures ParseItems(pre + ("0x" + Hex2(data[0])) + HexText(data[1..], count + 1)) == Some(data)
  {
    var more, rest := HexText(data[1..], count + 1), data[1..];
    if rest != [] {
      var gap := HexGap(count + 1);
      HexLayout(rest, count + 1);
      HexFrom(rest, count + 1, gap);
    }
    HexItem(data[0], more);
    ParseStep(pre, "0x" + Hex2(data[0]), data[0], more);
    FirstAndRest(data);
  }

  lemma HexLayout(data: seq<Byte>, count: nat)
    requires data != [] && count > 0
    ensures var t := HexText(data, count);
      t[0] == ',' && t[1..] == HexGap(count) + ("0x" + Hex2(data[0])) + HexText(data[1..], count + 1)
  {
    var rest, num := HexText(data[1..], count + 1), "0x" + Hex2(data[0]);
    assert HexPrefix(count) + Hex2(data[0]) == "," + (HexGap(count) + num);
    Regroup(",", HexGap(count) + num, rest);
    TailOf(',', HexGap(count) + num + rest);
  }

  function HexGap(count: nat): string {
    if count % 12 != 0 then " " else "\n  "
  }

  lemma HexParses(data: seq<Byte>)
    ensures ParseArray(HexText(data, 0)) == Some(data)
  {
    if data != [] {
      HexFrom(data, 0, "  ");
      HexCons(data, 0);
      Regroup("  ", "0x", Hex2(data[0]));
      assert "  0x" == "  " + "0x";
      var rest := ("0x" + Hex2(data[0])) + HexText(data[1..], 1);
      Regroup("  ", "0x" + Hex2(data[0]), HexText(data[1..], 1));
      SkipsBlanks("  ", rest);
    }
  }

  lemma {:induction false} DecimalFrom(data: seq<Byte>, pre: string)
    requires data != [] && Blank(pre)
    ensures ParseItems(pre + Decimal(data[0]) + DecimalText(data[1..], false)) == Some(data)
  {
    var more, rest := DecimalText(data[1..], false), data[1..];
    if rest != [] {
      DecimalLayout(rest);
      DecimalFrom(rest, " ");
    }
    DecimalItem(data[0], more);
    DecimalRead(data[0], more);
    ParseStep(pre, Decimal(data[0]), data[0], more);
    FirstAndRest(data);
  }

  lemma DecimalLayout(data: seq<Byte>)
    requires data != []
    ensures var t := DecimalText(data, false);
      t[0] == ',' && t[1..] == " " + Decimal(data[0]) + DecimalText(data[1..], false)
  {
    var rest, num := DecimalText(data[1..], false), Decimal(data[0]);
    assert ", " == "," + " ";
    Regroup(",", " ", num);
    Regroup(",", " " + num, rest);
    TailOf(',', " " + num + rest);
  }

  lemma DecimalParses(data: seq<Byte>)
    ensures ParseArray(DecimalText(data, true)) == Some(data)
  {
    if data != [] {
      DecimalFrom(data, "");
      DecimalRead(data[0], "");
      var t := DecimalText(data, true);
      assert t == "" + Decimal(data[0]) + DecimalText(data[1..], false);
      assert t == "" + t && t[0] == Decimal(data[0])[0];
      SkipsBlanks("", t);
    }
  }

  /** Twelve bytes to a line: every twelfth byte begins a line laid out like the first. */
  lemma {:induction false} HexRow(data: seq<Byte>, count: nat, k: nat)
    requires count + k > 0 && (count + k) % 12 == 0 && k < |data|
    ensures HexText(data, count) == HexText(data[..k], count) + ",\n" + HexText(data[k..], 0)
    decreases k
  {
    if k == 0 {
      FirstRow(data, count);
    } else {
      HexRow(data[1..], count + 1, k - 1);
      RowSlices(data, k);
      RowStep(data, count, k, HexText(data[1..], count + 1), HexText(data[1..][..k - 1], count + 1));
    }
  }

  lemma FirstRow(data: seq<Byte>, count: nat)
    requires count > 0 && count % 12 == 0 && data != []
    ensures HexText(data, count) == HexText(data[..0], count) + ",\n" + HexText(data[0..], 0)
  {
    NewRow(data, count);
    assert data[..0] == [] && data[0..] == data;
  }

  lemma RowStep(data: seq<Byte>, count: nat, k: nat, all: string, row: string)
    requires 0 < k < |data| && data[..k][0] == data[0]
    requires all == HexText(data[1..], count + 1) && row == HexText(data[..k][1..], count + 1)
    requires all == row + ",\n" + HexText(data[k..], 0)
    ensures HexText(data, count) == HexText(data[..k], count) + ",\n" + HexText(data[k..], 0)
  {
    var first := HexPrefix(count) + Hex2(data[0]);
    assert HexText(data, count) == first + all by { HexCons(data, count); }
    assert HexText(data[..k], count) == first + row by { HexCons(data[..k], count); }
    RegroupRow(first, all, row, HexText(data[k..], 0));
  }

  lemma RowSlices(data: seq<Byte>, k: nat)
    requires 0 < k < |data|
    ensures data[..k] != [] && data[..k][0] == data[0]
    ensures data[..k][1..] == data[1..][..k - 1] && data[1..][k - 1..] == data[k..]
  {
  }

  lemma HexCons(data: seq<Byte>, count: nat)
    requires data != []
    ensures HexText(data, count) == (HexPrefix(count) + Hex2(data[0])) + HexText(data[1..], count + 1)
  {
  }

  lemma NewRow(data: seq<Byte>, count: nat)
    requires count > 0 && count % 12 == 0 && data != []
    ensures HexText(data, count) == ",\n" + HexText(data, 0)
  {
    SameLayout(data[1..], count + 1, 1);
    var tail := HexText(data[1..], 1);
    HexCons(data, count);
    HexCons(data, 0);
    BreakFirst(Hex2(data[0]), tail);
  }

  lemma BreakFirst(num: string, tail: string)
    ensures (",\n  0x" + num) + tail == ",\n" + (("  0x" + num) + tail)
  {
    assert ",\n  0x" == ",\n" + "  0x";
    Regroup(",\n", "  0x", num);
    Regroup(",\n", "  0x" + num, tail);
  }

  lemma RegroupRow(first: string, all: string, row: string, rest: string)
    requires all == row + ",\n" + rest
    ensures first + all == first + row + ",\n" + rest
  {
  }

  /** The layout depends only on the position in the line. */
  lemma {:induction false} SameLayout(data: seq<Byte>, a: nat, b: nat)
    requires a % 12 == b % 12 && a > 0 && b > 0
    ensures HexText(data, a) == HexText(data, b)
  {
    if data != [] { SameLayout(data[1..], a + 1, b + 1); }
  }

  /** And no line is broken elsewhere. */
  lemma {:induction false} OneRow(data: seq<Byte>, count: nat)
    requires count + |data| <= 12
    ensures '\n' !in HexText(data, count)
  {
    if data != [] {
      OneRow(data[1..], count + 1);
      HexDigit(data[0] / 16);
      HexDigit(data[0] % 16);
      NotInEither(HexPrefix(count), Hex2(data[0]));
      NotInEither(HexPrefix(count) + Hex2(data[0]), HexText(data[1..], count + 1));
    }
  }

  lemma NotInEither(a: string, b: string)
    requires '\n' !in a && '\n' !in b
    ensures '\n' !in a + b
  {
  }

  method HexArray(content: seq<Byte>) returns (encoded: string)
    ensures encoded == HexText(content, 0) && ParseArray(encoded) == Some(content)
  {
    encoded := "";
    var count := 0;
    while count < |content|
      invariant 0 <= count <= |content|
      invariant encoded + HexText(content[count..], count) == HexText(content, 0)
    {
      var c := content[count];
      var prefix := if count % 12 != 0 then ", 0x" else if count == 0 then "  0x" else ",\n  0x";
      HexCons(content[count..], count);
      assert content[count..][1..] == content[count + 1..];
      Regroup(encoded, prefix, Hex2(c));
      Regroup(encoded, prefix + Hex2(c), HexText(content[count + 1..], count + 1));
      encoded := encoded + prefix + Hex2(c);
      count := count + 1;
    }
    HexParses(content);
  }

  method DecimalArray(content: seq<Byte>) returns (encoded: string)
    ensures encoded == DecimalText(content, true) && ParseArray(encoded) == Some(content)
  {
    encoded := "";
    var first := true;
    var i := 0;
    while i < |content|
      invariant 0 <= i <= |content| && first == (i == 0)
      invariant encoded + DecimalText(content[i..], first) == DecimalText(content, true)
    {
      assert content[i..][1..] == content[i + 1..];
      if first {
        first := false;
        encoded := encoded + Decimal(content[i]);
      } else {
        encoded := encoded + ", " + Decimal(content[i]);
      }
      i := i + 1;
    }
    DecimalParses(content);
  }
}
