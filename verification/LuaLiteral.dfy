/** The Lua string literals of the code generator (src/lua/upbc.cc), with a
    lexer written from section 3.1 of the Lua 5.4 Reference Manual. */
module LuaLiteral {
  import opened Common

  // ----- What the generator prints -----

  /** isprint in the "C" locale; bytes above 127 are negative chars and do not print. */
  predicate IsPrint(b: Byte) {
    32 <= b < 127
  }

  function HexDigit(d: int): char
    requires 0 <= d < 16
  {
    if d < 10 then ('0' as int + d) as char else ('A' as int + d - 10) as char
  }

  /** The text for one byte. */
  function Escape(b: Byte): (t: string)
    ensures 1 <= |t| <= 4
  {
    if b == '\\' as int then "\\\\"
    else if b == '\'' as int then "\\'"
    else if IsPrint(b) then [b as char]
    else ['\\', 'x', HexDigit(b / 16), HexDigit(b % 16)]
  }

  /** How many columns one byte counts for. */
  function Cost(b: Byte): int {
    if b == '\\' as int || b == '\'' as int || IsPrint(b) then 1 else 4
  }

  function Escaped(s: seq<Byte>): string {
    if s == [] then "" else Escape(s[0]) + Escaped(s[1..])
  }

  /** How many bytes go into one literal. */
  function Take(cols: int, s: seq<Byte>): (n: nat)
    ensures n <= |s|
  {
    if cols <= 0 || s == [] then 0 else 1 + Take(cols - Cost(s[0]), s[1..])
  }

  function Literal(s: seq<Byte>): string {
    "'" + Escaped(s) + "'"
  }

  const COLUMNS: int := 72

  /** The lines between the braces of `table.concat`. */
  function Table(data: seq<Byte>): string
    decreases |data|
  {
    if data == [] then "" else
    var n := Take(COLUMNS, data);
    "  " + Literal(data[..n]) + ",\n" + Table(data[n..])
  }

  function Chunks(data: seq<Byte>): seq<seq<Byte>>
    decreases |data|
  {
    if data == [] then [] else
    var n := Take(COLUMNS, data);
    [data[..n]] + Chunks(data[n..])
  }

  function Flatten(chunks: seq<seq<Byte>>): seq<Byte> {
    if chunks == [] then [] else chunks[0] + Flatten(chunks[1..])
  }

  // ----- The lexer of the manual -----

  function HexValue(c: char): Option<int> {
    if '0' <= c <= '9' then Some(c as int - '0' as int)
    else if 'A' <= c <= 'F' then Some(c as int - 'A' as int + 10)
    else if 'a' <= c <= 'f' then Some(c as int - 'a' as int + 10)
    else None
  }

  predicate IsDigit(c: char) {
    '0' <= c <= '9'
  }

  /** The escapes of a single character. */
  function SimpleEscape(c: char): Option<Byte> {
    match c
    case 'a' => Some(7)
    case 'b' => Some(8)
    case 't' => Some(9)
    case 'n' => Some(10)
    case 'v' => Some(11)
    case 'f' => Some(12)
    case 'r' => Some(13)
    case '\n' => Some(10)
    case '"' => Some(34)
    case '\'' => Some(39)
    case '\\' => Some(92)
    case _ => None
  }

  /** A decimal escape takes up to three digits. */
  function DecimalEscape(t: string): (r: Option<(Byte, nat)>)
    requires t != "" && IsDigit(t[0])
    ensures r.Some? ==> 1 <= r.value.1 <= |t|
  {
    var d0 := t[0] as int - '0' as int;
    if |t| < 2 || !IsDigit(t[1]) then Some((d0, 1)) else
    var d1 := 10 * d0 + t[1] as int - '0' as int;
    if |t| < 3 || !IsDigit(t[2]) then Some((d1, 2)) else
    var d2 := 10 * d1 + t[2] as int - '0' as int;
    if d2 < 256 then Some((d2, 3)) else None
  }

  /** One item of a literal's body: its byte and how many characters it takes. */
  function LexItem(t: string): (r: Option<(Byte, nat)>)
    requires t != ""
    ensures r.Some? ==> 1 <= r.value.1 <= |t|
  {
    if t[0] == '\n' || t[0] == '\r' then None
    else if t[0] != '\\' then if (t[0] as int) < 256 then Some((t[0] as int, 1)) else None
    else if |t| < 2 then None
    else if SimpleEscape(t[1]).Some? then Some((SimpleEscape(t[1]).value, 2))
    else if t[1] == 'x' then
      if |t| < 4 || HexValue(t[2]).None? || HexValue(t[3]).None? then None
      else Some((16 * HexValue(t[2]).value + HexValue(t[3]).value, 4))
    else if IsDigit(t[1]) then
      match DecimalEscape(t[1..])
      case None => None
      case Some((b, n)) => Some((b, n + 1))
    else None
  }

  /** The body of a literal up to its closing quote: the bytes, and what follows the quote. */
  function LexBody(t: string): (r: Option<(seq<Byte>, string)>)
    ensures r.Some? ==> |r.value.1| < |t|
    decreases |t|
  {
    if t == "" then None
    else if t[0] == '\'' then Some(([], t[1..]))
    else
      match LexItem(t)
      case None => None
      case Some((b, n)) =>
        match LexBody(t[n..])
        case None => None
        case Some((bytes, rest)) => Some(([b] + bytes, rest))
  }

  /** A list of single-quoted literals, each followed by a comma, with blanks and line ends between. */
  function LexTable(t: string): Option<seq<seq<Byte>>>
    decreases |t|
  {
    if t == "" then Some([])
    else if t[0] == ' ' || t[0] == '\n' then LexTable(t[1..])
    else if t[0] != '\'' then None
    else
      match LexBody(t[1..])
      case None => None
      case Some((bytes, rest)) =>
        if rest == "" || rest[0] != ',' then None else
        match LexTable(rest[1..])
        case None => None
        case Some(more) => Some([bytes] + more)
  }

  // ----- Round trip -----

  lemma EscapeLexed(b: Byte, rest: string)
    ensures (Escape(b) + rest)[0] != '\''
    ensures LexItem(Escape(b) + rest) == Some((b, |Escape(b)|))
    ensures (Escape(b) + rest)[|Escape(b)|..] == rest
  {
    var t := Escape(b) + rest;
    if Escape(b) == ['\\', 'x', HexDigit(b / 16), HexDigit(b % 16)] {
      assert t[0] == '\\' && t[1] == 'x' && t[2] == HexDigit(b / 16) && t[3] == HexDigit(b % 16);
    }
  }

  lemma {:induction false} BodyLexed(s: seq<Byte>, rest: string)
    ensures LexBody(Escaped(s) + "'" + rest) == Some((s, rest))
  {
    var t := Escaped(s) + "'" + rest;
    if s == [] {
      assert t[1..] == rest;
    } else {
      var tail := Escaped(s[1..]) + "'" + rest;
      BodyLexed(s[1..], rest);
      Regroup(Escape(s[0]), Escaped(s[1..]), "'");
      Regroup(Escape(s[0]), Escaped(s[1..]) + "'", rest);
      EscapeLexed(s[0], tail);
      assert s == [s[0]] + s[1..];
    }
  }

  lemma BlankSkipped(c: char, t: string)
    requires c == ' ' || c == '\n'
    ensures LexTable([c] + t) == LexTable(t)
  {
    assert ([c] + t)[1..] == t;
  }

  lemma LiteralLexed(s: seq<Byte>, more: string)
    ensures LexTable(Literal(s) + "," + more) ==
      if LexTable(more).None? then None else Some([s] + LexTable(more).value)
  {
    var t := Literal(s) + "," + more;
    assert t[1..] == Escaped(s) + "'" + ("," + more);
    BodyLexed(s, "," + more);
    assert ("," + more)[1..] == more;
  }

  lemma LineLexed(s: seq<Byte>, more: string)
    ensures LexTable("  " + Literal(s) + ",\n" + more) ==
      if LexTable(more).None? then None else Some([s] + LexTable(more).value)
  {
    var line := Literal(s) + "," + (['\n'] + more);
    assert "  " + Literal(s) + ",\n" + more == [' '] + ([' '] + line);
    BlankSkipped(' ', [' '] + line);
    BlankSkipped(' ', line);
    LiteralLexed(s, ['\n'] + more);
    BlankSkipped('\n', more);
  }

  /** Lexing the emitted lines gives the chunks. */
  lemma {:induction false} TableLexed(data: seq<Byte>)
    ensures LexTable(Table(data)) == Some(Chunks(data))
    decreases |data|
  {
    if data != [] {
      var n := Take(COLUMNS, data);
      TableLexed(data[n..]);
      LineLexed(data[..n], Table(data[n..]));
    }
  }

  /** Concatenating the lexed chunks gives the original, for every byte string. */
  lemma {:induction false} TableRoundTrip(data: seq<Byte>)
    ensures LexTable(Table(data)).Some? && Flatten(LexTable(Table(data)).value) == data
    decreases |data|
  {
    TableLexed(data);
    if data != [] {
      var n := Take(COLUMNS, data);
      TableRoundTrip(data[n..]);
      TableLexed(data[n..]);
      assert data == data[..n] + data[n..];
    }
  }

  /** A line for each chunk: indented, in quotes, with a comma. */
  function Lines(chunks: seq<seq<Byte>>): string {
    if chunks == [] then "" else "  '" + Escaped(chunks[0]) + "',\n" + Lines(chunks[1..])
  }

  lemma {:induction false} TableIsLines(data: seq<Byte>)
    ensures Table(data) == Lines(Chunks(data))
    decreases |data|
  {
    if data != [] {
      var n := Take(COLUMNS, data);
      TableIsLines(data[n..]);
      TailOf(data[..n], Chunks(data[n..]));
      assert "  " + Literal(data[..n]) + ",\n" == "  '" + Escaped(data[..n]) + "',\n";
    }
  }

  // ----- The size of a chunk -----

  lemma {:induction false} TakeBounds(cols: int, s: seq<Byte>)
    requires cols > 0
    ensures Take(cols, s) <= cols
    ensures s != [] ==> Take(cols, s) >= 1
    ensures |Escaped(s[..Take(cols, s)])| <= 2 * cols + 2
  {
    if s != [] {
      var n, rest := Take(cols, s), cols - Cost(s[0]);
      assert s[..n][1..] == s[1..][..n - 1];
      if rest > 0 {
        TakeBounds(rest, s[1..]);
      } else {
        assert s[..n] == [s[0]];
      }
    }
  }

  /** Each chunk takes from 1 to 72 bytes and prints at most 146 characters between its quotes. */
  lemma {:induction false} ChunkBounds(data: seq<Byte>, i: nat)
    requires i < |Chunks(data)|
    ensures 1 <= |Chunks(data)[i]| <= 72 && |Escaped(Chunks(data)[i])| <= 146
    decreases i
  {
    TakeBounds(COLUMNS, data);
    if i > 0 { ChunkBounds(data[Take(COLUMNS, data)..], i - 1); }
  }

  /** The columns of some bytes: one for a character that prints, four for any other. */
  function Columns(s: seq<Byte>): nat {
    if s == [] then 0 else (if 32 <= s[0] <= 126 then 1 else 4) + Columns(s[1..])
  }

  lemma {:induction false} TakeFills(cols: int, s: seq<Byte>)
    requires cols > 0
    ensures var n := Take(cols, s);
      && (n > 0 ==> Columns(s[..n - 1]) < cols)
      && (n < |s| ==> Columns(s[..n]) >= cols)
  {
    if s != [] {
      var n, rest := Take(cols, s), cols - Cost(s[0]);
      assert s[..n][1..] == s[1..][..n - 1];
      if rest > 0 {
        TakeFills(rest, s[1..]);
        if n > 1 { assert s[..n - 1][1..] == s[1..][..n - 2]; }
      } else {
        assert s[..n] == [s[0]];
      }
    }
  }

  /** A chunk ends with the byte that reaches column 72, or with the data. */
  lemma {:induction false} ChunkFills(data: seq<Byte>, i: nat)
    requires i < |Chunks(data)|
    ensures var c := Chunks(data)[i];
      && c != [] && Columns(c[..|c| - 1]) < 72
      && (i < |Chunks(data)| - 1 ==> Columns(c) >= 72)
    decreases i
  {
    TakeBounds(COLUMNS, data);
    TakeFills(COLUMNS, data);
    var n := Take(COLUMNS, data);
    assert data[..n][..n - 1] == data[..n - 1];
    if i > 0 {
      ChunkFills(data[n..], i - 1);
    } else if n == |data| {
      assert data[n..] == [];
    }
  }

  /** What stands for a byte: a backslash before the quote and the backslash, other characters that
      print as they are, and the rest by two upper-case digits. */
  lemma EscapeExact(b: Byte)
    ensures b == 0x27 ==> Escape(b) == "\\'"
    ensures b == 0x5C ==> Escape(b) == "\\\\"
    ensures 0x20 <= b <= 0x7E && b != 0x27 && b != 0x5C ==> Escape(b) == [b as char]
    ensures b < 0x20 || b > 0x7E ==>
      Escape(b) == "\\x" + ["0123456789ABCDEF"[b / 16], "0123456789ABCDEF"[b % 16]]
  {
    forall d | 0 <= d < 16 ensures HexDigit(d) == "0123456789ABCDEF"[d] {}
  }

  function Backslashes(n: nat): seq<Byte> {
    if n == 0 then [0] else [92] + Backslashes(n - 1)
  }

  lemma {:induction false} BackslashesTaken(n: nat)
    ensures |Backslashes(n)| == n + 1 && Take(n + 1, Backslashes(n)) == n + 1
    ensures |Escaped(Backslashes(n))| == 2 * n + 4
  {
    if n > 0 { BackslashesTaken(n - 1); } else { assert Escaped(Backslashes(0)[1..]) == ""; }
  }

  /** The bound of 146 is met. */
  lemma BoundIsTight()
    ensures Chunks(Backslashes(71)) == [Backslashes(71)] && |Escaped(Backslashes(71))| == 146
  {
    var data := Backslashes(71);
    BackslashesTaken(71);
    assert data[..72] == data && data[72..] == [];
  }

  // ----- The printer -----

  class Printer {
    var out: string

    constructor ()
      ensures out == ""
    {
      out := "";
    }

    method Write(t: string)
      modifies this
      ensures out == old(out) + t
    {
      out := out + t;
    }
  }

  method PrintHexDigit(digit: int, printer: Printer)
    requires 0 <= digit < 16
    modifies printer
    ensures printer.out == old(printer.out) + [HexDigit(digit)]
  {
    var text: char;
    if digit < 10 {
      text := ('0' as int + digit) as char;
    } else {
      text := ('A' as int + (digit - 10)) as char;
    }
    printer.Write([text]);
  }

  /** The body of PrintString's loop: print one byte and tell its cost. */
  method PrintByte(ch: Byte, printer: Printer) returns (cost: int)
    modifies printer
    ensures printer.out == old(printer.out) + Escape(ch) && cost == Cost(ch)
  {
    cost := 1;
    if ch == '\\' as int {
      printer.Write("\\\\");
    } else if ch == '\'' as int {
      printer.Write("\\'");
    } else if IsPrint(ch) {
      printer.Write([ch as char]);
    } else {
      printer.Write("\\x");
      PrintHexDigit(ch / 16, printer);
      PrintHexDigit(ch % 16, printer);
      cost := 4;
    }
  }

  /** PrintString: print one literal and drop what it took from the front of `str`. */
  method PrintString(maxCols: int, str: seq<Byte>, printer: Printer) returns (rest: seq<Byte>)
    modifies printer
    ensures rest == str[Take(maxCols, str)..]
    ensures printer.out == old(printer.out) + Literal(str[..Take(maxCols, str)])
  {
    ghost var start := printer.out;
    printer.Write("'");
    ghost var quoted := printer.out;
    rest := str;
    var cols := maxCols;
    ghost var i := 0;
    assert str[0..] == str;
    while cols > 0 && rest != []
      invariant 0 <= i <= |str| && rest == str[i..] && i + Take(cols, rest) == Take(maxCols, str)
      invariant printer.out == quoted + Escaped(str[..i])
      decreases |rest|
    {
      OneMore(quoted, str, i);
      var cost := PrintByte(rest[0], printer);
      cols := cols - cost;
      rest := rest[1..];
      i := i + 1;
    }
    printer.Write("'");
    assert quoted + Escaped(str[..i]) + "'" == start + Literal(str[..i]);
  }

  lemma OneMore(before: string, s: seq<Byte>, i: nat)
    requires i < |s|
    ensures before + Escaped(s[..i]) + Escape(s[i]) == before + Escaped(s[..i + 1])
  {
    EscapedSnoc(s[..i], s[i]);
    assert s[..i + 1] == s[..i] + [s[i]];
  }

  lemma {:induction false} EscapedSnoc(s: seq<Byte>, b: Byte)
    ensures Escaped(s + [b]) == Escaped(s) + Escape(b)
  {
    if s == [] {
      assert s + [b] == [b] && Escaped([b][1..]) == "";
    } else {
      EscapedSnoc(s[1..], b);
      assert (s + [b])[1..] == s[1..] + [b];
      Regroup(Escape(s[0]), Escaped(s[1..]), Escape(b));
    }
  }

  /** The loop of Generate. */
  method PrintTable(data: seq<Byte>, printer: Printer)
    modifies printer
    ensures printer.out == old(printer.out) + Table(data)
  {
    var rest := data;
    ghost var start := printer.out;
    while rest != []
      invariant start + Table(data) == printer.out + Table(rest)
      decreases |rest|
    {
      ghost var before, r := printer.out, rest;
      ghost var n := Take(COLUMNS, rest);
      TakeBounds(COLUMNS, rest);
      printer.Write("  ");
      rest := PrintString(COLUMNS, rest, printer);
      printer.Write(",\n");
      LineFirst(r, before);
    }
  }

  lemma LineFirst(data: seq<Byte>, before: string)
    requires data != []
    ensures var n := Take(COLUMNS, data);
      before + Table(data) == before + "  " + Literal(data[..n]) + ",\n" + Table(data[n..])
  {
  }
}
