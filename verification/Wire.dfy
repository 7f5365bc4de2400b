/** The binary wire-format builder (src/conformance/binary_wireformat.cc and
    .h), with a decoder written from the Protocol Buffers encoding guide. */
module Wire {
  import opened Common

  const TWO_32: int := 0x1_0000_0000
  const TWO_64: int := 0x1_0000_0000_0000_0000
  const VARINT_MAX_LEN: int := 10

  // ----- Varints -----

  /** The groups of seven bits, least significant first; `more` marks the last
      one as continued too. */
  function Groups(x: nat, more: bool): (s: seq<Byte>)
    requires x > 0
    ensures |s| == MinLen(x)
  {
    if x < 128 then [if more then x + 128 else x] else [x % 128 + 128] + Groups(x / 128, more)
  }

  function Padding(extra: nat): (s: seq<Byte>)
    ensures |s| == extra
  {
    if extra == 0 then [] else if extra == 1 then [0] else [128] + Padding(extra - 1)
  }

  /** What vencode64 writes. */
  function Encode(x: nat, extra: nat): seq<Byte> {
    if x == 0 then [0] else Groups(x, extra > 0) + Padding(extra)
  }

  /** The number of bytes of the shortest encoding. */
  function MinLen(x: nat): (n: nat)
    ensures n > 0
  {
    if x < 128 then 1 else 1 + MinLen(x / 128)
  }

  /** A value and a padding that fit in ten bytes; zero takes any padding. */
  predicate Fits(x: int, extra: int) {
    0 <= x < TWO_64 && (x == 0 || (0 <= extra && MinLen(x) + extra <= VARINT_MAX_LEN))
  }

  /** Base 128 varints: the low seven bits of each byte, least significant
      first, until a byte without the continuation bit; at most `budget` bytes.
      Gives the value and the number of bytes. */
  function ReadGroups(s: seq<Byte>, budget: nat): (r: Option<(nat, nat)>)
    ensures r.Some? ==> 1 <= r.value.1 <= budget && r.value.1 <= |s|
  {
    if s == [] || budget == 0 then None
    else if s[0] < 128 then Some((s[0], 1))
    else
      match ReadGroups(s[1..], budget - 1)
      case None => None
      case Some((v, n)) => Some((s[0] - 128 + 128 * v, n + 1))
  }

  /** A varint is at most ten bytes and holds 64 bits. */
  function ReadVarint(s: seq<Byte>): (r: Option<(nat, nat)>)
    ensures r.Some? ==> 1 <= r.value.1 <= |s|
  {
    match ReadGroups(s, 10)
    case None => None
    case Some((v, n)) => Some((v % TWO_64, n))
  }

  function Pow128(n: nat): nat {
    if n == 0 then 1 else 128 * Pow128(n - 1)
  }

  lemma {:induction false} MinLenBound(x: nat, n: nat)
    requires n > 0
    ensures x < Pow128(n) <==> MinLen(x) <= n
  {
    if x < 128 {
      PowPositive(n - 1);
    } else if n == 1 {
      assert Pow128(1) == 128 * Pow128(0);
    } else {
      MinLenBound(x / 128, n - 1);
      assert x < 128 * Pow128(n - 1) <==> x / 128 < Pow128(n - 1);
    }
  }

  lemma {:induction false} PowPositive(n: nat)
    ensures Pow128(n) >= 1
  {
    if n > 0 { PowPositive(n - 1); }
  }

  lemma Pow128Ten()
    ensures Pow128(10) == 0x40_0000_0000_0000_0000 && Pow128(9) == 0x8000_0000_0000_0000
  {
    assert Pow128(3) == 0x20_0000;
    assert Pow128(6) == 0x400_0000_0000;
    assert Pow128(8) == 0x100_0000_0000_0000;
  }

  lemma {:induction false} ReadPadding(extra: nat, rest: seq<Byte>, budget: nat)
    requires 0 < extra <= budget
    ensures ReadGroups(Padding(extra) + rest, budget) == Some((0, extra))
  {
    var s := Padding(extra) + rest;
    if extra > 1 {
      ReadPadding(extra - 1, rest, budget - 1);
      assert s[1..] == Padding(extra - 1) + rest;
    }
  }

  lemma {:induction false} ReadEncoded(x: nat, extra: nat, rest: seq<Byte>, budget: nat)
    requires x > 0 && MinLen(x) + extra <= budget
    ensures ReadGroups(Groups(x, extra > 0) + Padding(extra) + rest, budget) == Some((x, MinLen(x) + extra))
  {
    var s := Groups(x, extra > 0) + Padding(extra) + rest;
    if x >= 128 {
      ReadEncoded(x / 128, extra, rest, budget - 1);
      assert s[1..] == Groups(x / 128, extra > 0) + Padding(extra) + rest;
    } else if extra > 0 {
      ReadPadding(extra, rest, budget - 1);
      assert s[1..] == Padding(extra) + rest;
    }
  }

  /** The length of an encoding: minimal plus padding, except that zero ignores the padding. */
  function EncodedLen(x: nat, extra: nat): nat {
    if x == 0 then 1 else MinLen(x) + extra
  }

  /** Decoding undoes encoding, padded or not, whatever follows. */
  lemma VarintRoundTrip(x: nat, extra: nat, rest: seq<Byte>)
    requires Fits(x, extra)
    ensures |Encode(x, extra)| == EncodedLen(x, extra) <= VARINT_MAX_LEN
    ensures ReadVarint(Encode(x, extra) + rest) == Some((x, EncodedLen(x, extra)))
  {
    if x > 0 { ReadEncoded(x, extra, rest, 10); }
  }

  lemma SmallFits(x: nat)
    requires x < TWO_64
    ensures Fits(x, 0)
  {
    Pow128Ten();
    MinLenBound(x, 10);
  }

  lemma {:induction false} ReadBound(s: seq<Byte>, budget: nat)
    requires ReadGroups(s, budget).Some?
    ensures ReadGroups(s, budget).value.0 < Pow128(ReadGroups(s, budget).value.1)
  {
    if s[0] < 128 {
      assert Pow128(1) == 128 * Pow128(0);
    } else {
      ReadBound(s[1..], budget - 1);
    }
  }

  /** Without padding the encoding is the shortest that decodes to the value. */
  lemma VarintShortest(x: nat, s: seq<Byte>)
    requires x < TWO_64 && ReadVarint(s).Some? && ReadVarint(s).value.0 == x
    ensures |Encode(x, 0)| <= ReadVarint(s).value.1
  {
    var (v, n) := ReadGroups(s, 10).value;
    ReadBound(s, 10);
    assert x <= v;
    MinLenBound(x, n);
  }

  /** No encoding is a proper prefix of another: the set of all of them, padded or not, is prefix-free. */
  lemma VarintPrefixFree(x: nat, e: nat, y: nat, f: nat)
    requires Fits(x, e) && Fits(y, f) && Encode(x, e) <= Encode(y, f)
    ensures x == y && Encode(x, e) == Encode(y, f)
  {
    var rest := Encode(y, f)[|Encode(x, e)|..];
    assert Encode(x, e) + rest == Encode(y, f) + [];
    VarintRoundTrip(x, e, rest);
    VarintRoundTrip(y, f, []);
  }

  /** `Varint<T>` sign-extends: a negative int64 always takes all ten bytes, a
      non-negative one at most nine. */
  lemma NegativeTakesTenBytes(x: int)
    requires -0x8000_0000_0000_0000 <= x < 0x8000_0000_0000_0000
    ensures |Encode(x % TWO_64, 0)| == 10 <==> x < 0
    ensures |Encode(x % TWO_64, 0)| <= 10
  {
    Pow128Ten();
    MinLenBound(x % TWO_64, 9);
    MinLenBound(x % TWO_64, 10);
    if x < 0 { assert x % TWO_64 == x + TWO_64; }
  }

  /** `buf[i] = b`, with what it leaves in front and behind. */
  method Put(buf: array<Byte>, i: nat, b: Byte)
    requires i < buf.Length
    modifies buf
    ensures buf[..i + 1] == old(buf[..i]) + [b] && buf[i + 1..] == old(buf[i..])[1..]
  {
    buf[i] := b;
  }

  /** The groups still to come, none of a value shifted down to zero. */
  function Coming(val: nat, more: bool): (s: seq<Byte>)
    ensures |s| == if val == 0 then 0 else MinLen(val)
  {
    if val == 0 then [] else Groups(val, more)
  }

  lemma ComingStep(before: seq<Byte>, val: nat, more: bool)
    requires val > 0
    ensures var b := val % 128 + if val / 128 != 0 || more then 128 else 0;
      before + [b] + Coming(val / 128, more) == before + Coming(val, more)
  {
    var b := val % 128 + if val / 128 != 0 || more then 128 else 0;
    Regroup(before, [b], Coming(val / 128, more));
    assert Coming(val, more) == [b] + Coming(val / 128, more);
  }

  /** The first loop of vencode64: the groups of seven bits. */
  method WriteGroups(x: nat, extra: int, buf: array<Byte>) returns (i: nat)
    requires x > 0 && extra >= 0 && MinLen(x) <= buf.Length
    modifies buf
    ensures i == MinLen(x) && buf[..i] == Groups(x, extra > 0) && buf[i..] == old(buf[i..])
  {
    ghost var orig := buf[..];
    var val: int := x;
    i := 0;
    while val != 0
      invariant 0 <= val && i + |Coming(val, extra > 0)| == MinLen(x)
      invariant buf[..i] + Coming(val, extra > 0) == Groups(x, extra > 0)
      invariant buf[i..] == orig[i..]
    {
      ComingStep(buf[..i], val, extra > 0);
      var byte := val % 128;
      val := val / 128;
      if val != 0 || extra != 0 { byte := byte + 128; }
      Put(buf, i, byte);
      i := i + 1;
    }
  }

  /** vencode64, in place in a ten-byte buffer. */
  method Vencode64(x: nat, extra: int, buf: array<Byte>) returns (i: nat)
    requires buf.Length == VARINT_MAX_LEN && Fits(x, extra)
    modifies buf
    ensures i == EncodedLen(x, if x == 0 then 0 else extra) && i <= buf.Length
    ensures buf[..i] == Encode(x, if x == 0 then 0 else extra)
    ensures buf[i..] == old(buf[i..])
  {
    if x == 0 {
      Put(buf, 0, 0);
      return 1;
    }
    ghost var orig := buf[..];
    i := WriteGroups(x, extra, buf);
    var over := extra;
    while over != 0
      invariant 0 <= over <= extra && i + over == MinLen(x) + extra
      invariant buf[..i] + Padding(over) == Groups(x, extra > 0) + Padding(extra)
      invariant buf[i..] == orig[i..]
      decreases over
    {
      over := over - 1;
      assert i < VARINT_MAX_LEN;
      Put(buf, i, if over != 0 then 128 else 0);
      i := i + 1;
    }
  }

  // ----- Fixed-width values, length prefixes and tags -----

  const FIXED32_SIZE: nat := 4
  const FIXED64_SIZE: nat := 8

  /** The `n` low bytes of `x`, least significant first. */
  function LittleEndian(x: nat, n: nat): (s: seq<Byte>)
    ensures |s| == n
  {
    if n == 0 then [] else [x % 256] + LittleEndian(x / 256, n - 1)
  }

  function FromLittleEndian(s: seq<Byte>): nat {
    if s == [] then 0 else s[0] + 256 * FromLittleEndian(s[1..])
  }

  function Pow256(n: nat): nat {
    if n == 0 then 1 else 256 * Pow256(n - 1)
  }

  lemma {:induction false} FixedRoundTrip(x: nat, n: nat)
    requires x < Pow256(n)
    ensures FromLittleEndian(LittleEndian(x, n)) == x
  {
    if n > 0 { FixedRoundTrip(x / 256, n - 1); }
  }

  /** The k-th digit of a number in a base, the least significant first. */
  function Digit(x: int, base: int, k: nat): int
    requires base > 0
    decreases k
  {
    if k == 0 then x % base else Digit(x / base, base, k - 1)
  }

  /** Each byte is the digit of its place. */
  lemma {:induction false} FixedBytes(x: nat, n: nat, k: nat)
    requires k < n
    ensures LittleEndian(x, n)[k] == Digit(x, 256, k)
  {
    if k > 0 { FixedBytes(x / 256, n - 1, k - 1); }
  }

  lemma {:induction false} NoDigits(k: nat)
    ensures Digit(0, 128, k) == 0
  {
    if k > 0 { NoDigits(k - 1); }
  }

  lemma {:induction false} GroupBytesAre(x: nat, more: bool, k: nat)
    requires x > 0 && k < MinLen(x)
    ensures Groups(x, more)[k] == Digit(x, 128, k) + if k + 1 < MinLen(x) || more then 128 else 0
  {
    if k > 0 { GroupBytesAre(x / 128, more, k - 1); }
  }

  lemma {:induction false} PaddingBytesAre(extra: nat, k: nat)
    requires k < extra
    ensures Padding(extra)[k] == if k + 1 < extra then 128 else 0
  {
    if k > 0 { PaddingBytesAre(extra - 1, k - 1); }
  }

  lemma {:induction false} DigitsEnd(x: nat, k: nat)
    requires k >= MinLen(x)
    ensures Digit(x, 128, k) == 0
  {
    if x < 128 { NoDigits(k - 1); } else { DigitsEnd(x / 128, k - 1); }
  }

  /** Each byte of a varint is the seven-bit digit of its place, with the high bit on all but the
      last; padding bytes are digits of zero. */
  lemma VarintBytes(x: nat, extra: nat, k: nat)
    requires k < EncodedLen(x, extra)
    ensures Encode(x, extra)[k] == Digit(x, 128, k) + if k + 1 < EncodedLen(x, extra) then 128 else 0
  {
    if x > 0 {
      if k < MinLen(x) {
        GroupBytesAre(x, extra > 0, k);
      } else {
        PaddingBytesAre(extra, k - MinLen(x));
        DigitsEnd(x, k);
      }
    }
  }

  function Varint(x: nat): seq<Byte> {
    Encode(x, 0)
  }

  function LongVarint(x: nat, extra: nat): seq<Byte> {
    Encode(x, extra)
  }

  function Fixed32(x: nat): seq<Byte> {
    LittleEndian(x, FIXED32_SIZE)
  }

  function Fixed64(x: nat): seq<Byte> {
    LittleEndian(x, FIXED64_SIZE)
  }

  function LengthPrefixed(data: seq<Byte>): seq<Byte> {
    Varint(|data|) + data
  }

  const VARINT: int := 0
  const FIXED64: int := 1
  const LENGTH_PREFIXED: int := 2
  const START_GROUP: int := 3
  const END_GROUP: int := 4
  const FIXED32: int := 5

  /** The field number is shifted within 32 bits; the three bits of the wire type are free. */
  function Tag(num: nat, wireType: nat): seq<Byte> {
    Varint((num * 8) % TWO_32 + wireType)
  }

  predicate ValidNumber(num: int) {
    1 <= num < 0x2000_0000
  }

  // ----- Fields -----

  function VarintField(num: nat, x: nat): seq<Byte> {
    Tag(num, VARINT) + Varint(x)
  }

  function LongVarintField(num: nat, x: nat, extra: nat): seq<Byte> {
    Tag(num, VARINT) + LongVarint(x, extra)
  }

  function Fixed32Field(num: nat, x: nat): seq<Byte> {
    Tag(num, FIXED32) + Fixed32(x)
  }

  function Fixed64Field(num: nat, x: nat): seq<Byte> {
    Tag(num, FIXED64) + Fixed64(x)
  }

  function LengthPrefixedField(num: nat, data: seq<Byte>): seq<Byte> {
    Tag(num, LENGTH_PREFIXED) + LengthPrefixed(data)
  }

  function DelimitedField(num: nat, content: seq<Byte>): seq<Byte> {
    Tag(num, START_GROUP) + content + Tag(num, END_GROUP)
  }

  /** A message as a tree of fields; `extra` is the padding of a varint. */
  datatype Field =
    | VarintF(num: nat, value: nat, extra: nat)
    | Fixed32F(num: nat, value: nat)
    | Fixed64F(num: nat, value: nat)
    | LengthF(num: nat, data: seq<Byte>)
    | GroupF(num: nat, fields: seq<Field>)

  predicate ValidField(f: Field) {
    ValidNumber(f.num) &&
    match f
    case VarintF(_, x, extra) => Fits(x, extra) && (x == 0 ==> extra == 0)
    case Fixed32F(_, x) => x < TWO_32
    case Fixed64F(_, x) => x < TWO_64
    case LengthF(_, data) => |data| < TWO_64
    case GroupF(_, fields) => forall g :: g in fields ==> ValidField(g)
  }

  function Build(f: Field): seq<Byte> {
    match f
    case VarintF(num, x, extra) => if extra == 0 then VarintField(num, x) else LongVarintField(num, x, extra)
    case Fixed32F(num, x) => Fixed32Field(num, x)
    case Fixed64F(num, x) => Fixed64Field(num, x)
    case LengthF(num, data) => LengthPrefixedField(num, data)
    case GroupF(num, fields) => DelimitedField(num, BuildAll(fields))
  }

  function BuildAll(fs: seq<Field>): seq<Byte> {
    if fs == [] then [] else Build(fs[0]) + BuildAll(fs[1..])
  }

  // ----- The decoder of the encoding guide -----

  /** One field's value after its tag, for every wire type but the groups. The wire types and
      sizes are the encoding guide's own numbers, not the builder's. */
  function ReadScalar(num: nat, wireType: nat, s: seq<Byte>): (r: Option<(Field, nat)>)
    ensures r.Some? ==> r.value.1 <= |s|
  {
    if wireType == 0 then
      match ReadVarint(s)
      case None => None
      case Some((x, n)) => Some((VarintF(num, x, if n < MinLen(x) then 0 else n - MinLen(x)), n))
    else if wireType == 5 then
      if |s| < 4 then None else Some((Fixed32F(num, FromLittleEndian(s[..4])), 4))
    else if wireType == 1 then
      if |s| < 8 then None else Some((Fixed64F(num, FromLittleEndian(s[..8])), 8))
    else if wireType == 2 then
      match ReadVarint(s)
      case None => None
      case Some((len, n)) => if |s| < n + len then None else Some((LengthF(num, s[n..n + len]), n + len))
    else None
  }

  /** A field in front of the rest of the result. */
  function Prepend(f: Field, r: Option<(seq<Field>, seq<Byte>)>): Option<(seq<Field>, seq<Byte>)> {
    match r case None => None case Some((more, left)) => Some(([f] + more, left))
  }

  /** The fields up to the end of the input, or, inside group `open`, up to
      that group's own end tag; and the input that is left. */
  function Parse(s: seq<Byte>, open: Option<nat>): (r: Option<(seq<Field>, seq<Byte>)>)
    ensures r.Some? ==> |r.value.1| <= |s|
    decreases |s|
  {
    if s == [] then if open.None? then Some(([], [])) else None
    else
      match ReadVarint(s)
      case None => None
      case Some((tag, n)) =>
        var num, wireType, rest := tag / 8, tag % 8, s[n..];
        if !ValidNumber(num) then None
        else if wireType == 4 then
          if open == Some(num) then Some(([], rest)) else None
        else if wireType == 3 then
          match Parse(rest, Some(num))
          case None => None
          case Some((inner, after)) =>
            Prepend(GroupF(num, inner), Parse(after, open))
        else
          match ReadScalar(num, wireType, rest)
          case None => None
          case Some((f, k)) => Prepend(f, Parse(rest[k..], open))
  }

  // ----- The builder and the decoder undo each other -----

  lemma TagRead(num: nat, wireType: nat, rest: seq<Byte>)
    requires ValidNumber(num) && wireType < 8
    ensures var s := Tag(num, wireType) + rest;
      && ReadVarint(s) == Some((num * 8 + wireType, |Tag(num, wireType)|))
      && s[|Tag(num, wireType)|..] == rest && s != []
      && (num * 8 + wireType) / 8 == num && (num * 8 + wireType) % 8 == wireType
  {
    SmallFits(num * 8 + wireType);
    VarintRoundTrip(num * 8 + wireType, 0, rest);
  }

  function WireTypeOf(f: Field): nat {
    match f
    case VarintF(_, _, _) => VARINT
    case Fixed32F(_, _) => FIXED32
    case Fixed64F(_, _) => FIXED64
    case LengthF(_, _) => LENGTH_PREFIXED
    case GroupF(_, _) => START_GROUP
  }

  function Payload(f: Field): seq<Byte>
    requires !f.GroupF?
  {
    match f
    case VarintF(_, x, extra) => Encode(x, extra)
    case Fixed32F(_, x) => Fixed32(x)
    case Fixed64F(_, x) => Fixed64(x)
    case LengthF(_, data) => LengthPrefixed(data)
  }

  lemma FixedRead(x: nat, n: nat, rest: seq<Byte>)
    requires (n == 4 && x < TWO_32) || (n == 8 && x < TWO_64)
    ensures FromLittleEndian((LittleEndian(x, n) + rest)[..n]) == x
  {
    assert Pow256(4) == TWO_32 && Pow256(8) == TWO_64;
    FixedRoundTrip(x, n);
    assert (LittleEndian(x, n) + rest)[..n] == LittleEndian(x, n);
  }

  lemma PrefixedRead(data: seq<Byte>, rest: seq<Byte>)
    requires |data| < TWO_64
    ensures var s, n := LengthPrefixed(data) + rest, |Varint(|data|)|;
      ReadVarint(s) == Some((|data|, n)) && n + |data| == |LengthPrefixed(data)| && s[n..n + |data|] == data
  {
    SmallFits(|data|);
    VarintRoundTrip(|data|, 0, data + rest);
    assert LengthPrefixed(data) + rest == Varint(|data|) + (data + rest);
  }

  lemma ScalarRead(f: Field, rest: seq<Byte>)
    requires ValidField(f) && !f.GroupF?
    ensures ReadScalar(f.num, WireTypeOf(f), Payload(f) + rest) == Some((f, |Payload(f)|))
  {
    match f
    case VarintF(num, x, extra) => VarintScalar(num, x, extra, rest);
    case Fixed32F(num, x) => Fixed32Scalar(num, x, rest);
    case Fixed64F(num, x) => Fixed64Scalar(num, x, rest);
    case LengthF(num, data) => PrefixedScalar(num, data, rest);
  }

  lemma VarintScalar(num: nat, x: nat, extra: nat, rest: seq<Byte>)
    requires Fits(x, extra) && (x == 0 ==> extra == 0)
    ensures ReadScalar(num, VARINT, Encode(x, extra) + rest) == Some((VarintF(num, x, extra), |Encode(x, extra)|))
  {
    VarintRoundTrip(x, extra, rest);
  }

  lemma Fixed32Scalar(num: nat, x: nat, rest: seq<Byte>)
    requires x < TWO_32
    ensures ReadScalar(num, FIXED32, Fixed32(x) + rest) == Some((Fixed32F(num, x), FIXED32_SIZE))
  {
    FixedRead(x, FIXED32_SIZE, rest);
  }

  lemma Fixed64Scalar(num: nat, x: nat, rest: seq<Byte>)
    requires x < TWO_64
    ensures ReadScalar(num, FIXED64, Fixed64(x) + rest) == Some((Fixed64F(num, x), FIXED64_SIZE))
  {
    FixedRead(x, FIXED64_SIZE, rest);
  }

  lemma PrefixedScalar(num: nat, data: seq<Byte>, rest: seq<Byte>)
    requires |data| < TWO_64
    ensures ReadScalar(num, LENGTH_PREFIXED, LengthPrefixed(data) + rest) ==
            Some((LengthF(num, data), |LengthPrefixed(data)|))
  {
    PrefixedRead(data, rest);
  }

  function PrependAll(fs: seq<Field>, r: Option<(seq<Field>, seq<Byte>)>): Option<(seq<Field>, seq<Byte>)> {
    match r case None => None case Some((more, left)) => Some((fs + more, left))
  }

  lemma ParseScalar(s: seq<Byte>, open: Option<nat>, tag: nat, n: nat, f: Field, k: nat)
    requires s != [] && ReadVarint(s) == Some((tag, n)) && ValidNumber(tag / 8)
    requires tag % 8 != END_GROUP && tag % 8 != START_GROUP
    requires ReadScalar(tag / 8, tag % 8, s[n..]) == Some((f, k))
    ensures Parse(s, open) == Prepend(f, Parse(s[n..][k..], open))
  {
    var rest := s[n..];
    var r := Parse(rest[k..], open);
    if r.None? {
      assert Parse(s, open).None?;
    } else {
      assert Parse(s, open) == Some(([f] + r.value.0, r.value.1));
    }
  }

  lemma ScalarStep(f: Field, tail: seq<Byte>, open: Option<nat>)
    requires ValidField(f) && !f.GroupF?
    ensures Parse(Build(f) + tail, open) == Prepend(f, Parse(tail, open))
  {
    var body, s := Payload(f) + tail, Build(f) + tail;
    BuildScalar(f);
    assert s == Tag(f.num, WireTypeOf(f)) + body;
    TagRead(f.num, WireTypeOf(f), body);
    ScalarRead(f, tail);
    assert body[|Payload(f)|..] == tail;
    ParseScalar(s, open, f.num * 8 + WireTypeOf(f), |Tag(f.num, WireTypeOf(f))|, f, |Payload(f)|);
  }

  lemma BuildScalar(f: Field)
    requires !f.GroupF?
    ensures Build(f) == Tag(f.num, WireTypeOf(f)) + Payload(f)
  {
  }

  lemma PrependHead(fs: seq<Field>, r: Option<(seq<Field>, seq<Byte>)>)
    ensures fs != [] ==> PrependAll(fs, r) == Prepend(fs[0], PrependAll(fs[1..], r))
    ensures fs == [] ==> PrependAll(fs, r) == r
  {
    if r.Some? {
      if fs == [] { assert fs + r.value.0 == r.value.0; }
      else { assert fs + r.value.0 == [fs[0]] + (fs[1..] + r.value.0); }
    }
  }

  lemma GroupStep(num: nat, body: seq<Byte>, open: Option<nat>)
    requires ValidNumber(num)
    ensures Parse(Tag(num, START_GROUP) + body, open) ==
      if Parse(body, Some(num)).None? then None
      else Prepend(GroupF(num, Parse(body, Some(num)).value.0), Parse(Parse(body, Some(num)).value.1, open))
  {
    TagRead(num, START_GROUP, body);
  }

  lemma EndStep(num: nat, rest: seq<Byte>, open: Option<nat>)
    requires ValidNumber(num)
    ensures Parse(Tag(num, END_GROUP) + rest, open) == if open == Some(num) then Some(([], rest)) else None
  {
    TagRead(num, END_GROUP, rest);
  }

  lemma WholeGroup(f: Field, tail: seq<Byte>, open: Option<nat>)
    requires f.GroupF? && ValidNumber(f.num)
    requires var close := Tag(f.num, END_GROUP) + tail;
      Parse(BuildAll(f.fields) + close, Some(f.num)) == PrependAll(f.fields, Parse(close, Some(f.num)))
    ensures Parse(Build(f) + tail, open) == Prepend(f, Parse(tail, open))
  {
    var close := Tag(f.num, END_GROUP) + tail;
    EndStep(f.num, tail, Some(f.num));
    assert f.fields + [] == f.fields;
    GroupBytes(f.num, BuildAll(f.fields), tail);
    GroupStep(f.num, BuildAll(f.fields) + close, open);
  }

  lemma GroupBytes(num: nat, content: seq<Byte>, tail: seq<Byte>)
    ensures DelimitedField(num, content) + tail == Tag(num, START_GROUP) + (content + (Tag(num, END_GROUP) + tail))
  {
  }

  /** One built field in front of any input is parsed back as that field. */
  lemma {:induction false} FieldStep(f: Field, tail: seq<Byte>, open: Option<nat>)
    requires ValidField(f)
    ensures Parse(Build(f) + tail, open) == Prepend(f, Parse(tail, open))
    decreases f, 0
  {
    if f.GroupF? {
      FieldSteps(f.fields, Tag(f.num, END_GROUP) + tail, Some(f.num));
      WholeGroup(f, tail, open);
    } else {
      ScalarStep(f, tail, open);
    }
  }

  /** So is any sequence of built fields. */
  lemma {:induction false} FieldSteps(fs: seq<Field>, tail: seq<Byte>, open: Option<nat>)
    requires forall f :: f in fs ==> ValidField(f)
    ensures Parse(BuildAll(fs) + tail, open) == PrependAll(fs, Parse(tail, open))
    decreases fs
  {
    PrependHead(fs, Parse(tail, open));
    if fs == [] {
      assert BuildAll(fs) + tail == tail;
    } else {
      var rest := BuildAll(fs[1..]) + tail;
      assert BuildAll(fs) + tail == Build(fs[0]) + rest;
      FieldSteps(fs[1..], tail, open);
      FieldStep(fs[0], rest, open);
    }
  }

  /** For every tree of fields: parsing what the builders made gives back
      exactly the tree. */
  lemma WireRoundTrip(fs: seq<Field>)
    requires forall f :: f in fs ==> ValidField(f)
    ensures Parse(BuildAll(fs), None) == Some((fs, []))
  {
    FieldSteps(fs, [], None);
    assert BuildAll(fs) + [] == BuildAll(fs) && fs + [] == fs;
  }

  /** A short tag is one byte, with the field number above the three bits of the wire type. */
  lemma ShortTag(num: nat, wireType: nat)
    requires 0 < num < 16 && wireType < 8
    ensures Tag(num, wireType) == [8 * num + wireType]
  {
  }

  /** The encoding guide's example of a two-byte varint, and a fixed-width value. */
  lemma KnownValues()
    ensures Varint(150) == [0x96, 0x01]
    ensures Fixed32(0x0102) == [2, 1, 0, 0]
    ensures Varint(0) == [0]
  {
    assert Groups(150, false) == [150 % 128 + 128] + Groups(1, false);
    LowFirst(0x0102, 4);
    LowFirst(1, 3);
  }

  lemma LowFirst(x: nat, n: nat)
    requires n > 0
    ensures LittleEndian(x, n) == [x % 256] + LittleEndian(x / 256, n - 1)
  {
  }

  /** The bytes of a field of every kind, by the encoding guide's numbers for the wire types. */
  lemma KnownFields(x: nat, data: seq<Byte>, fields: seq<Field>)
    ensures Build(VarintF(1, x, 0)) == [0x08] + Varint(x)
    ensures Build(Fixed64F(1, x)) == [0x09] + Fixed64(x)
    ensures Build(LengthF(1, data)) == [0x0A] + (Varint(|data|) + data)
    ensures Build(GroupF(1, fields)) == [0x0B] + BuildAll(fields) + [0x0C]
    ensures Build(Fixed32F(1, x)) == [0x0D] + Fixed32(x)
  {
    forall t: nat | t < 8 ensures Tag(1, t) == [8 + t] { ShortTag(1, t); }
  }

  /** LongVarintField ignores the padding of a zero, so it is parsed back without it. */
  lemma ZeroIgnoresPadding(num: nat, extra: nat, tail: seq<Byte>, open: Option<nat>)
    requires ValidNumber(num)
    ensures LongVarintField(num, 0, extra) == Build(VarintF(num, 0, 0))
    ensures Parse(LongVarintField(num, 0, extra) + tail, open) == Prepend(VarintF(num, 0, 0), Parse(tail, open))
  {
    FieldStep(VarintF(num, 0, 0), tail, open);
  }

  /** Different messages have different encodings. */
  lemma BuildInjective(fs: seq<Field>, gs: seq<Field>)
    requires (forall f :: f in fs ==> ValidField(f)) && (forall g :: g in gs ==> ValidField(g))
    requires BuildAll(fs) == BuildAll(gs)
    ensures fs == gs
  {
    WireRoundTrip(fs);
    WireRoundTrip(gs);
  }

  /** A group is closed by its own end tag and by no other. */
  lemma GroupClosedByOwnTag(fs: seq<Field>, num: nat, other: nat, rest: seq<Byte>)
    requires (forall f :: f in fs ==> ValidField(f)) && ValidNumber(num) && ValidNumber(other)
    ensures Parse(Tag(num, START_GROUP) + (BuildAll(fs) + (Tag(other, END_GROUP) + rest)), None) ==
      if other == num then Prepend(GroupF(num, fs), Parse(rest, None)) else None
  {
    var close := Tag(other, END_GROUP) + rest;
    GroupStep(num, BuildAll(fs) + close, None);
    FieldSteps(fs, close, Some(num));
    EndStep(other, rest, Some(num));
    assert fs + [] == fs;
  }

  // ----- Packed fields -----

  function Concat<T>(func: T -> seq<Byte>, container: seq<T>): seq<Byte> {
    if container == [] then [] else func(container[0]) + Concat(func, container[1..])
  }

  lemma {:induction false} ConcatSnoc<T>(func: T -> seq<Byte>, container: seq<T>, x: T)
    ensures Concat(func, container + [x]) == Concat(func, container) + func(x)
  {
    if container == [] {
      assert container + [x] == [x];
    } else {
      ConcatSnoc(func, container[1..], x);
      assert (container + [x])[1..] == container[1..] + [x];
    }
  }

  /** PackedImpl: the prefix is the number of elements. */
  method PackedImpl<T>(func: T -> seq<Byte>, container: seq<T>) returns (buf: seq<Byte>)
    ensures buf == Varint(|container|) + Concat(func, container)
  {
    buf := Varint(|container|);
    for i := 0 to |container|
      invariant buf == Varint(|container|) + Concat(func, container[..i])
    {
      buf := buf + func(container[i]);
      ConcatSnoc(func, container[..i], container[i]);
      assert container[..i] + [container[i]] == container[..i + 1];
    }
    assert container[..|container|] == container;
  }

  /** It is a length prefix exactly when the elements take one byte each on average. */
  lemma PackedIsLengthPrefixed<T>(func: T -> seq<Byte>, container: seq<T>)
    requires |container| < TWO_64 && |Concat(func, container)| < TWO_64
    ensures Varint(|container|) + Concat(func, container) == LengthPrefixed(Concat(func, container))
            <==> |Concat(func, container)| == |container|
  {
    var data := Concat(func, container);
    SmallFits(|container|);
    SmallFits(|data|);
    VarintRoundTrip(|container|, 0, data);
    VarintRoundTrip(|data|, 0, data);
  }

  predicate AllBelow128(container: seq<nat>) {
    forall i :: 0 <= i < |container| ==> container[i] < 128
  }

  lemma {:induction false} ConcatVarints(container: seq<nat>)
    ensures |Concat(Varint, container)| >= |container|
    ensures |Concat(Varint, container)| == |container| <==> AllBelow128(container)
  {
    if container != [] {
      var x, rest := container[0], container[1..];
      ConcatVarints(rest);
      assert Concat(Varint, container) == Varint(x) + Concat(Varint, rest);
      assert x != 0 ==> |Varint(x)| == MinLen(x);
      assert |Varint(x)| >= 1 && (|Varint(x)| == 1 <==> x < 128);
      assert AllBelow128(container) <==> x < 128 && AllBelow128(rest) by {
        if x < 128 && AllBelow128(rest) {
          forall i | 0 <= i < |container| ensures container[i] < 128 { if i > 0 { assert rest[i - 1] < 128; } }
        }
        if AllBelow128(container) {
          forall i | 0 <= i < |rest| ensures rest[i] < 128 { assert container[i + 1] < 128; }
        }
      }
    }
  }

  /** For packed varints: exactly when every element is below 128. */
  lemma PackedVarints(container: seq<nat>)
    requires |container| < TWO_64 && |Concat(Varint, container)| < TWO_64
    ensures Varint(|container|) + Concat(Varint, container) == LengthPrefixed(Concat(Varint, container))
            <==> AllBelow128(container)
  {
    PackedIsLengthPrefixed(Varint, container);
    ConcatVarints(container);
  }
}
