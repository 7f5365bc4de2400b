/** The numeric range checks of src/lua/upb.c over binary floating point.

    A finite double is a whole number of units of 2 to the minus `b`, where `b` is the number
    of bits after the point of the smallest one: 1074 for binary64 of IEEE 754-2019. All
    statements hold for every `b` of at least one. */
module IntCheck {
  import opened Common

  const SIGNIFICANDS: int := 0x20_0000_0000_0000

  function Abs(x: int): nat {
    if x < 0 then -x else x
  }

  ghost predicate IsScaled(u: int, m: int, e: nat) {
    Abs(m) < SIGNIFICANDS && u == m * Pow2(e)
  }

  /** A significand of 53 bits, scaled by a power of two. */
  ghost predicate IsDouble(u: int) {
    exists m, e: nat :: IsScaled(u, m, e)
  }

  // ----- rounding to nearest, ties to even (section 4.3.1 of IEEE 754-2019)

  /** How many low bits do not fit into the significand. */
  function Scale(a: nat): nat {
    if a < SIGNIFICANDS then 0 else 1 + Scale(a / 2)
  }

  function RoundNat(a: nat): int {
    var p := Pow2(Scale(a));
    var q, r := a / p, a % p;
    if 2 * r > p || (2 * r == p && q % 2 == 1) then (q + 1) * p else q * p
  }

  function Round(u: int): int {
    if u < 0 then -RoundNat(-u) else RoundNat(u)
  }

  /** The last bit of the significand. */
  function LastBit(u: int): int {
    (Abs(u) / Pow2(Scale(Abs(u)))) % 2
  }

  lemma {:induction false} Pow2Add(a: nat, b: nat)
    ensures Pow2(a + b) == Pow2(a) * Pow2(b)
  {
    if a > 0 {
      Pow2Add(a - 1, b);
      assert Pow2(a + b) == 2 * Pow2(a - 1 + b);
    }
  }

  lemma Pow2Mono(a: nat, b: nat)
    requires a <= b
    ensures Pow2(a) <= Pow2(b)
  {
    Pow2Add(a, b - a);
    TimesMono(1, Pow2(b - a), Pow2(a));
  }

  lemma {:induction false} ScaleBounds(a: nat)
    ensures a < SIGNIFICANDS * Pow2(Scale(a))
    ensures Scale(a) > 0 ==> 2 * a >= SIGNIFICANDS * Pow2(Scale(a))
  {
    if a >= SIGNIFICANDS { ScaleBounds(a / 2); }
  }

  /** The rounded value is a multiple of the scale, and no multiple is nearer. */
  lemma NearestMultiple(a: nat, k: int)
    ensures var p := Pow2(Scale(a));
      var d := Abs(a - RoundNat(a));
      2 * d <= p && d <= Abs(a - k * p) && (d == Abs(a - k * p) ==> k * p == RoundNat(a) || 2 * d == p)
  {
    var p := Pow2(Scale(a));
    var q, r := a / p, a % p;
    assert a == q * p + r;
    assert (q + 1) * p == q * p + p;
    if k <= q { TimesMono(k, q, p); } else { TimesMono(q + 1, k, p); }
    if k < q { TimesMono(k, q - 1, p); assert (q - 1) * p == q * p - p; }
    if k > q + 1 { TimesMono(q + 2, k, p); assert (q + 2) * p == q * p + 2 * p; }
  }

  /** A double that is no multiple of the scale is smaller than all that have it. */
  lemma FinerIsSmaller(a: nat, m: int, f: nat)
    requires Abs(m) < SIGNIFICANDS && f < Scale(a)
    ensures 2 * (Abs(m) * Pow2(f)) < SIGNIFICANDS * Pow2(Scale(a)) <= 2 * a
  {
    var h := Pow2(Scale(a) - 1);
    ScaleBounds(a);
    Pow2Mono(f, Scale(a) - 1);
    TimesMono(Abs(m), SIGNIFICANDS - 1, Pow2(f));
    assert Abs(m) * Pow2(f) <= (SIGNIFICANDS - 1) * h;
    assert Pow2(Scale(a)) == 2 * h;
  }

  lemma AbsTimes(m: int, p: nat)
    ensures Abs(m * p) == Abs(m) * p
  {
  }

  /** No double is nearer to a number than the rounded one. */
  lemma NearestNat(a: nat, y: int)
    requires IsDouble(y)
    ensures var d := Abs(a - RoundNat(a));
      d <= Abs(a - y) && (d == Abs(a - y) ==> y == RoundNat(a) || 2 * d == Pow2(Scale(a)))
  {
    var m, f: nat :| IsScaled(y, m, f);
    if f >= Scale(a) {
      var k := CoarserIsMultiple(m, f, Scale(a));
      NearestMultiple(a, k);
    } else {
      FinerIsFarther(a, m, f);
    }
  }

  lemma CoarserIsMultiple(m: int, f: nat, e: nat) returns (k: int)
    requires f >= e
    ensures m * Pow2(f) == k * Pow2(e)
  {
    Pow2Add(f - e, e);
    k := m * Pow2(f - e);
    assert m * (Pow2(f - e) * Pow2(e)) == k * Pow2(e);
  }

  lemma FinerIsFarther(a: nat, m: int, f: nat)
    requires Abs(m) < SIGNIFICANDS && f < Scale(a)
    ensures Abs(a - RoundNat(a)) < Abs(a - m * Pow2(f))
  {
    var p := Pow2(Scale(a));
    assert 2 * Abs(m * Pow2(f)) < SIGNIFICANDS * p <= 2 * a by {
      FinerIsSmaller(a, m, f);
      AbsTimes(m, Pow2(f));
    }
    assert Abs(a - RoundNat(a)) <= Abs(a - (SIGNIFICANDS / 2) * p) by { NearestMultiple(a, SIGNIFICANDS / 2); }
  }

  lemma {:induction false} ScaleOf(q: nat, e: nat)
    requires SIGNIFICANDS <= 2 * q && q < SIGNIFICANDS
    ensures q * Pow2(e) >= 0 && Scale(q * Pow2(e)) == e
  {
    if e > 0 {
      var h := q * Pow2(e - 1);
      ScaleOf(q, e - 1);
      assert q * Pow2(e) == 2 * h;
      TimesMono(1, Pow2(e - 1), q);
    }
  }

  /** The significand the rounding gives: one too large becomes a smaller one, scaled up. */
  function Significand(a: nat): int {
    var p := Pow2(Scale(a));
    var q, r := a / p, a % p;
    if 2 * r > p || (2 * r == p && q % 2 == 1) then q + 1 else q
  }

  lemma QuotientBounds(a: nat)
    ensures var p := Pow2(Scale(a));
      0 <= a / p < SIGNIFICANDS && a == (a / p) * p + a % p && (Scale(a) > 0 ==> 2 * (a / p) >= SIGNIFICANDS)
  {
    ScaleBounds(a);
    QuotientBelow(a, Pow2(Scale(a)), SIGNIFICANDS);
    if Scale(a) > 0 { DivAtLeast(a, Pow2(Scale(a)), SIGNIFICANDS / 2); }
  }

  lemma QuotientBelow(a: nat, p: int, n: int)
    requires p > 0 && a < n * p
    ensures 0 <= a / p < n && a == (a / p) * p + a % p
  {
    assert a == (a / p) * p + a % p;
    if a / p >= n {
      TimesMono(n, a / p, p);
      assert false;
    }
  }

  lemma Rounded(a: nat)
    ensures RoundNat(a) == Significand(a) * Pow2(Scale(a)) && 0 <= Significand(a) <= SIGNIFICANDS
    ensures Scale(a) > 0 ==> 2 * Significand(a) >= SIGNIFICANDS
    ensures 2 * Abs(a - RoundNat(a)) == Pow2(Scale(a)) ==> Significand(a) % 2 == 0 && Scale(a) > 0
  {
    QuotientBounds(a);
    var p := Pow2(Scale(a));
    assert (a / p + 1) * p == (a / p) * p + p;
  }

  lemma ScaledDouble(k: nat, e: nat)
    requires k <= SIGNIFICANDS && (e > 0 ==> 2 * k >= SIGNIFICANDS)
    ensures k * Pow2(e) >= 0 && IsDouble(k * Pow2(e))
    ensures e > 0 && k % 2 == 0 ==> LastBit(k * Pow2(e)) == 0
  {
    TimesMono(0, k, Pow2(e));
    if k < SIGNIFICANDS {
      assert IsScaled(k * Pow2(e), k, e);
      if e > 0 { LastBitOf(k, e); }
    } else {
      CarryDouble(k, k / 2, e);
    }
  }

  /** One too large a significand is half of it with a larger scale. */
  lemma CarryDouble(k: nat, h: nat, e: nat)
    requires k == SIGNIFICANDS && k == 2 * h && h % 2 == 0
    ensures IsDouble(k * Pow2(e)) && LastBit(k * Pow2(e)) == 0
  {
    var u := k * Pow2(e);
    Halved(k, h, e);
    assert IsScaled(u, h, e + 1);
    LastBitOf(h, e + 1);
  }

  lemma Halved(k: nat, h: nat, e: nat)
    requires k == 2 * h
    ensures k * Pow2(e) == h * Pow2(e + 1)
  {
    assert Pow2(e + 1) == 2 * Pow2(e);
    TimesAssoc(h, 2, Pow2(e));
  }

  lemma LastBitOf(k: nat, e: nat)
    requires SIGNIFICANDS <= 2 * k && k < SIGNIFICANDS
    ensures LastBit(k * Pow2(e)) == k % 2
  {
    ScaleOf(k, e);
    var u := k * Pow2(e);
    DivUnique(u, Pow2(e), k);
    assert Abs(u) == u;
  }

  lemma RoundedNat(a: nat)
    ensures RoundNat(a) >= 0 && IsDouble(RoundNat(a))
    ensures 2 * Abs(a - RoundNat(a)) == Pow2(Scale(a)) ==> LastBit(RoundNat(a)) == 0
  {
    Rounded(a);
    ScaledDouble(Significand(a), Scale(a));
  }

  /** Round gives a double, no double is nearer, and of two that are equally near it gives the
      one whose significand is even. */
  lemma RoundIsNearestEven(u: int, y: int)
    requires IsDouble(y)
    ensures IsDouble(Round(u)) && Abs(u - Round(u)) <= Abs(u - y)
    ensures y != Round(u) && Abs(u - Round(u)) == Abs(u - y) ==> LastBit(Round(u)) == 0
  {
    RoundedNat(Abs(u));
    if u < 0 {
      Negated(y);
      Negated(RoundNat(-u));
      NearestNat(-u, -y);
    } else {
      NearestNat(u, y);
    }
  }

  lemma Negated(y: int)
    requires IsDouble(y)
    ensures IsDouble(-y)
  {
    var m, e: nat :| IsScaled(y, m, e);
    assert IsScaled(-y, -m, e) by { assert (-m) * Pow2(e) == -(m * Pow2(e)); }
  }

  lemma RoundExact(u: int)
    ensures Round(u) == u <==> IsDouble(u)
  {
    if IsDouble(u) { RoundIsNearestEven(u, u); }
    RoundedNat(Abs(u));
    if u < 0 { Negated(RoundNat(-u)); }
  }

  // ----- the checks

  datatype CType = Int64 | Int32 | Uint64 | Uint32

  function MinOf(t: CType): int {
    match t
    case Int64 => -0x8000_0000_0000_0000
    case Int32 => -0x8000_0000
    case _ => 0
  }

  function MaxOf(t: CType): int {
    match t
    case Int64 => 0x7FFF_FFFF_FFFF_FFFF
    case Int32 => 0x7FFF_FFFF
    case Uint64 => 0xFFFF_FFFF_FFFF_FFFF
    case Uint32 => 0xFFFF_FFFF
  }

  /** The limits of two's complement and of binary64. */
  lemma Limits()
    ensures MinOf(Int64) == -Pow2(63) && MaxOf(Int64) == Pow2(63) - 1
    ensures MinOf(Int32) == -Pow2(31) && MaxOf(Int32) == Pow2(31) - 1
    ensures MinOf(Uint64) == 0 && MaxOf(Uint64) == Pow2(64) - 1
    ensures MinOf(Uint32) == 0 && MaxOf(Uint32) == Pow2(32) - 1
    ensures SIGNIFICANDS == Pow2(53)
  {
    Powers();
  }

  lemma Powers()
    ensures Pow2(31) == 0x8000_0000 && Pow2(32) == 0x1_0000_0000 && Pow2(53) == 0x20_0000_0000_0000
    ensures Pow2(63) == 0x8000_0000_0000_0000 && Pow2(64) == 0x1_0000_0000_0000_0000
  {
    assert Pow2(10) == 1024 && Pow2(11) == 2048;
    PowerProduct(10, 11, 21, 1024, 2048);
    PowerProduct(10, 21, 31, 1024, 0x20_0000);
    PowerProduct(1, 31, 32, 2, 0x8000_0000);
    PowerProduct(21, 32, 53, 0x20_0000, 0x1_0000_0000);
    PowerProduct(31, 32, 63, 0x8000_0000, 0x1_0000_0000);
    PowerProduct(32, 32, 64, 0x1_0000_0000, 0x1_0000_0000);
  }

  lemma PowerProduct(a: nat, b: nat, n: nat, p: int, q: int)
    requires a + b == n && Pow2(a) == p && Pow2(b) == q
    ensures Pow2(n) == p * q
  {
    Pow2Add(a, b);
  }

  /** Zero has two doubles; every other whole number of units has at most one. */
  datatype Double = NaN | Infinite(negative: bool) | NegativeZero | Finite(units: int)

  datatype LuaValue = Integer(i: int) | Float(n: Double) | Other

  /** `i > max` under C's usual conversions: against a uint64_t the lua_Integer is converted. */
  predicate AboveMax(t: CType, i: int) {
    (if t == Uint64 then i % 0x1_0000_0000_0000_0000 else i) > MaxOf(t)
  }

  /** (((double)max / 2) * 2) + 1, rounded at each step. */
  function MaxValue(t: CType, b: nat): int {
    Widened(MaxOf(t) * Pow2(b), Pow2(b))
  }

  function Widened(limit: int, one: int): int {
    Round(Round(Round(Round(limit) / 2) * 2) + one)
  }

  /** lupb_check<type>; None is a Lua error. */
  function Check(t: CType, b: nat, v: LuaValue): Option<int> {
    match v
    case Other => None
    case Integer(i) => if i < MinOf(t) || AboveMax(t, i) then None else Some(i)
    case Float(NaN) => None
    case Float(Infinite(_)) => None
    case Float(NegativeZero) => Some(0)
    case Float(Finite(u)) =>
      if u % Pow2(b) != 0 || u < Round(MinOf(t) * Pow2(b)) || u >= MaxValue(t, b) then None else Some(u / Pow2(b))
  }

  /** lupb_push<type>. */
  function Push(b: nat, val: int): LuaValue {
    Float(Finite(Round(val * Pow2(b))))
  }

  // ----- the limits

  /** Large doubles are whole multiples of 1024. */
  lemma LargeDoubles(y: int, b: nat) returns (j: int)
    requires IsDouble(y) && y >= 0x4000_0000_0000_0000 * Pow2(b)
    ensures y == (1024 * j) * Pow2(b)
  {
    var m, e: nat :| IsScaled(y, m, e);
    assert e >= b + 10 by { if e < b + 10 { SmallScale(m, e, b); } }
    j := CoarserIsMultiple(m, e, b + 10);
    Pow2Ten(b);
    assert j * (1024 * Pow2(b)) == (1024 * j) * Pow2(b);
  }

  lemma SmallScale(m: int, e: nat, b: nat)
    requires m < SIGNIFICANDS && e < b + 10
    ensures m * Pow2(e) < 0x4000_0000_0000_0000 * Pow2(b)
  {
    Pow2Ten(b);
    Pow2Mono(e, b + 9);
    TimesMono(m, SIGNIFICANDS - 1, Pow2(e));
    TimesMono(Pow2(e), Pow2(b + 9), SIGNIFICANDS - 1);
  }

  lemma Pow2Ten(b: nat)
    ensures Pow2(b + 9) == 512 * Pow2(b) && Pow2(b + 10) == 1024 * Pow2(b)
  {
    Pow2Add(9, b);
    Pow2Add(10, b);
    assert Pow2(9) == 512 && Pow2(10) == 1024;
  }

  /** A number one away from a large multiple of 1024 that is a double rounds to it. */
  lemma RoundsToLarge(k: int, u: int, b: nat)
    requires k > 0x4000_0000_0000_0400 && k % 1024 == 0 && IsDouble(k * Pow2(b))
    requires u == (k - 1) * Pow2(b) || u == (k + 1) * Pow2(b)
    ensures Round(u) == k * Pow2(b)
  {
    var one, y := Pow2(b), Round(u);
    Neighbours(k, one);
    Neighbours(k - 1, one);
    Neighbours(k + 1, one);
    RoundIsNearestEven(u, k * one);
    TimesMono(0x4000_0000_0000_0000, k - 2, one);
    var j := LargeDoubles(y, b);
    BetweenMultiples(k, j, one);
  }

  lemma BetweenMultiples(k: int, j: int, one: int)
    requires one > 0 && k % 1024 == 0 && (k - 2) * one <= (1024 * j) * one <= (k + 2) * one
    ensures 1024 * j == k
  {
    TimesCancel(k - 2, 1024 * j, one);
    TimesCancel(1024 * j, k + 2, one);
  }

  lemma Neighbours(k: int, one: int)
    ensures (k + 1) * one == k * one + one && (k - 1) * one == k * one - one
  {
  }

  lemma Exact(m: int, e: nat)
    requires Abs(m) < SIGNIFICANDS
    ensures Round(m * Pow2(e)) == m * Pow2(e)
  {
    assert IsScaled(m * Pow2(e), m, e);
    RoundExact(m * Pow2(e));
  }

  lemma ScaledBy(j: int, c: nat, b: nat)
    requires Abs(j) < SIGNIFICANDS
    ensures IsDouble((j * Pow2(c)) * Pow2(b))
  {
    Pow2Add(c, b);
    TimesAssoc(j, Pow2(c), Pow2(b));
    assert IsScaled((j * Pow2(c)) * Pow2(b), j, c + b);
  }

  /** A significand with twelve zeros after it. */
  lemma PowerIsDouble(k: int, j: int, b: nat)
    requires k == j * 4096 && Abs(j) < SIGNIFICANDS
    ensures IsDouble(k * Pow2(b))
  {
    assert Pow2(12) == 4096;
    ScaledBy(j, 12, b);
  }

  lemma WidenedTo(limit: int, rounded: int, half: int, one: int, bound: int)
    requires Round(limit) == rounded && rounded == 2 * half && IsDouble(rounded) && IsDouble(half)
    requires Round(rounded + one) == bound
    ensures Widened(limit, one) == bound
  {
    RoundExact(rounded);
    RoundExact(half);
  }

  /** One below the power rounds up to it, halving and doubling keep it, one above rounds down. */
  lemma LargeLimit(max: int, h: int, b: nat, one: int, top: int)
    requires max > 0x4000_0000_0000_0400 && (max + 1) % 1024 == 0 && max + 1 == 2 * h
    requires one == Pow2(b) && top == (max + 1) * one && IsDouble(top) && IsDouble(h * one)
    ensures Widened(max * one, one) == top
  {
    assert top == 2 * (h * one) by { TimesAssoc(2, h, one); }
    assert (max + 2) * one == top + one && max * one == top - one by { Neighbours(max + 1, one); }
    RoundsToLarge(max + 1, top - one, b);
    RoundsToLarge(max + 1, top + one, b);
    WidenedTo(top - one, top, h * one, one, top);
  }

  /** Limits of 32 bits are exact throughout. */
  lemma SmallLimit(max: int, b: nat, one: int, half: int)
    requires 0 <= max < SIGNIFICANDS - 1 && b >= 1 && one == Pow2(b) && half == Pow2(b - 1)
    ensures Widened(max * one, one) == (max + 1) * one
  {
    assert max * one == 2 * (max * half) by { TimesAssoc(max, 2, half); }
    assert max * one + one == (max + 1) * one by { Neighbours(max, one); }
    assert IsScaled(max * one, max, b) && IsScaled(max * half, max, b - 1);
    Exact(max, b);
    Exact(max + 1, b);
    WidenedTo(max * one, max * one, max * half, one, (max + 1) * one);
  }

  /** Although converting a 64-bit limit rounds it up, the bound is always the limit plus one. */
  lemma MaxValueExact(t: CType, b: nat)
    requires b >= 1
    ensures MaxValue(t, b) == (MaxOf(t) + 1) * Pow2(b)
  {
    match t
    case Int64 => Limit64(b);
    case Uint64 => LimitU64(b);
    case Int32 => Limit32(b);
    case Uint32 => LimitU32(b);
  }

  lemma Limit32(b: nat)
    requires b >= 1
    ensures Widened(0x7FFF_FFFF * Pow2(b), Pow2(b)) == 0x8000_0000 * Pow2(b)
  {
    SmallLimit(0x7FFF_FFFF, b, Pow2(b), Pow2(b - 1));
  }

  lemma LimitU32(b: nat)
    requires b >= 1
    ensures Widened(0xFFFF_FFFF * Pow2(b), Pow2(b)) == 0x1_0000_0000 * Pow2(b)
  {
    SmallLimit(0xFFFF_FFFF, b, Pow2(b), Pow2(b - 1));
  }

  lemma Limit64(b: nat)
    ensures Widened(0x7FFF_FFFF_FFFF_FFFF * Pow2(b), Pow2(b)) == 0x8000_0000_0000_0000 * Pow2(b)
  {
    var half, top := 0x4000_0000_0000_0000, 0x8000_0000_0000_0000;
    PowerIsDouble(half, 0x4_0000_0000_0000, b);
    PowerIsDouble(top, 0x8_0000_0000_0000, b);
    LargeLimit(0x7FFF_FFFF_FFFF_FFFF, half, b, Pow2(b), top * Pow2(b));
  }

  lemma LimitU64(b: nat)
    ensures Widened(0xFFFF_FFFF_FFFF_FFFF * Pow2(b), Pow2(b)) == 0x1_0000_0000_0000_0000 * Pow2(b)
  {
    var half, top := 0x8000_0000_0000_0000, 0x1_0000_0000_0000_0000;
    PowerIsDouble(half, 0x8_0000_0000_0000, b);
    PowerIsDouble(top, 0x10_0000_0000_0000, b);
    LargeLimit(0xFFFF_FFFF_FFFF_FFFF, half, b, Pow2(b), top * Pow2(b));
  }

  lemma MinExact(t: CType, b: nat)
    ensures Round(MinOf(t) * Pow2(b)) == MinOf(t) * Pow2(b)
  {
    if t.Int64? {
      PowerIsDouble(MinOf(t), -0x8_0000_0000_0000, b);
      RoundExact(MinOf(t) * Pow2(b));
    } else {
      Exact(MinOf(t), b);
    }
  }

  // ----- what the checks accept

  lemma WholeInRange(u: int, one: int, lo: int, hi: int)
    requires one > 0 && u % one == 0
    ensures u == (u / one) * one
    ensures lo * one <= u < (hi + 1) * one <==> lo <= u / one <= hi
  {
    var q := u / one;
    assert u == q * one + u % one;
    if lo <= q { TimesMono(lo, q, one); } else { TimesMono(q + 1, lo, one); }
    if q <= hi { TimesMono(q + 1, hi + 1, one); } else { TimesMono(hi + 1, q, one); }
    assert (q + 1) * one == q * one + one;
  }

  /** A Lua integer is accepted exactly when it is in range; a double exactly when it is a whole
      number in range, and then it is that number; nothing else is accepted. */
  lemma AcceptsExactly(t: CType, b: nat, v: LuaValue, k: int)
    requires b >= 1
    requires v.Integer? ==> -0x8000_0000_0000_0000 <= v.i <= 0x7FFF_FFFF_FFFF_FFFF
    ensures Check(t, b, v) == Some(k) <==>
      && MinOf(t) <= k <= MaxOf(t)
      && (v == Integer(k) || v == Float(Finite(k * Pow2(b))) || (k == 0 && v == Float(NegativeZero)))
  {
    if v.Float? && v.n.Finite? {
      FloatExactly(t, b, v.n.units, k, Pow2(b), MinOf(t), MaxOf(t));
    }
  }

  lemma FloatExactly(t: CType, b: nat, u: int, k: int, one: int, lo: int, hi: int)
    requires b >= 1 && one == Pow2(b) && lo == MinOf(t) && hi == MaxOf(t)
    ensures Check(t, b, Float(Finite(u))) == Some(k) <==> lo <= k <= hi && u == k * one
  {
    MaxValueExact(t, b);
    MinExact(t, b);
    DivUnique(k * one, one, k);
    if u % one == 0 { WholeInRange(u, one, lo, hi); }
  }

  /** Whether an integer is a double does not depend on the units. */
  lemma WholeDouble(val: int, b: nat)
    ensures IsDouble(val * Pow2(b)) <==> IsDouble(val)
  {
    if IsDouble(val) {
      var m, e: nat :| IsScaled(val, m, e);
      Pow2Add(e, b);
      TimesAssoc(m, Pow2(e), Pow2(b));
      assert IsScaled(val * Pow2(b), m, e + b);
    }
    if IsDouble(val * Pow2(b)) {
      var m, e: nat :| IsScaled(val * Pow2(b), m, e);
      if e >= b {
        Pow2Add(e - b, b);
        TimesAssoc(m, Pow2(e - b), Pow2(b));
        TimesCancel(m * Pow2(e - b), val, Pow2(b));
        TimesCancel(val, m * Pow2(e - b), Pow2(b));
        assert IsScaled(val, m, e - b);
      } else {
        Pow2Mono(e, b);
        AbsTimes(m, Pow2(e));
        AbsTimes(val, Pow2(b));
        TimesMono(Pow2(e), Pow2(b), Abs(m));
        TimesCancel(Abs(val), Abs(m), Pow2(b));
        assert IsScaled(val, val, 0);
      }
    }
  }

  /** Checking a pushed integer gives it back exactly when a double can hold it; otherwise the
      check gives another integer, or fails because the rounding left the range. */
  lemma CheckAfterPush(t: CType, b: nat, val: int)
    requires b >= 1 && MinOf(t) <= val <= MaxOf(t)
    ensures Check(t, b, Push(b, val)) == Some(val) <==> IsDouble(val)
  {
    WholeDouble(val, b);
    FloatExactly(t, b, Round(val * Pow2(b)), val, Pow2(b), MinOf(t), MaxOf(t));
    RoundExact(val * Pow2(b));
  }

  /** In particular every integer of at most 53 bits survives. */
  lemma SmallSurvives(t: CType, b: nat, val: int)
    requires b >= 1 && MinOf(t) <= val <= MaxOf(t) && Abs(val) <= SIGNIFICANDS
    ensures Check(t, b, Push(b, val)) == Some(val)
  {
    assert Pow2(0) == 1 && Pow2(1) == 2;
    assert if Abs(val) < SIGNIFICANDS then IsScaled(val, val, 0) else IsScaled(val, val / 2, 1);
    CheckAfterPush(t, b, val);
  }

  /** Doubles from 2 to the 52 times a power of two on are multiples of it. */
  lemma CoarseDoubles(y: int, f: nat) returns (j: int)
    requires IsDouble(y) && 2 * y >= SIGNIFICANDS * Pow2(f)
    ensures y == j * Pow2(f)
  {
    var m, e: nat :| IsScaled(y, m, e);
    if e < f {
      FinerThan(m, e, f);
      assert false;
    }
    j := CoarserIsMultiple(m, e, f);
  }

  lemma FinerThan(m: int, e: nat, f: nat)
    requires m < SIGNIFICANDS && e < f
    ensures 2 * (m * Pow2(e)) < SIGNIFICANDS * Pow2(f)
  {
    Pow2Mono(e, f - 1);
    TimesMono(m, SIGNIFICANDS - 1, Pow2(e));
    TimesMono(Pow2(e), Pow2(f - 1), SIGNIFICANDS - 1);
    assert Pow2(f) == 2 * Pow2(f - 1);
  }

  /** The two doubles around the top of a binade: the upper has the even significand. */
  lemma TopDoubles(f: nat, p: int, top: int)
    requires p == Pow2(f) && top == SIGNIFICANDS * p
    ensures IsDouble(top) && IsDouble(top - p) && LastBit(top - p) == 1
  {
    CarryDouble(SIGNIFICANDS, SIGNIFICANDS / 2, f);
    assert top - p == (SIGNIFICANDS - 1) * p;
    assert IsScaled((SIGNIFICANDS - 1) * p, SIGNIFICANDS - 1, f);
    LastBitOf(SIGNIFICANDS - 1, f);
  }

  /** A number below the top of a binade is rounded up to it exactly from half a step below it. */
  lemma RoundsToTop(u: nat, f: nat, p: int, top: int)
    requires p == Pow2(f) && top == SIGNIFICANDS * p && u < top
    ensures Round(u) >= top <==> 2 * (top - u) <= p
  {
    var y := Round(u);
    TopDoubles(f, p, top);
    RoundIsNearestEven(u, top);
    RoundIsNearestEven(u, top - p);
    if 2 * (top - u) <= p && y < top {
      var j := CoarseDoubles(y, f);
      OnlyMultipleBelow(j, p, y, top);
      assert false;
    }
  }

  lemma OnlyMultipleBelow(j: int, p: int, y: int, top: int)
    requires p > 0 && y == j * p && top == SIGNIFICANDS * p && top - p <= y < top
    ensures y == top - p
  {
    assert (SIGNIFICANDS - 1) * p == top - p;
    TimesCancel(SIGNIFICANDS - 1, j, p);
    if j >= SIGNIFICANDS {
      TimesMono(SIGNIFICANDS, j, p);
      assert false;
    }
  }

  lemma LargeIsWhole(a: nat, b: nat)
    requires a >= SIGNIFICANDS * Pow2(b)
    ensures RoundNat(a) % Pow2(b) == 0
  {
    var e := Scale(a);
    ScaleBounds(a);
    if e < b {
      Pow2Mono(e, b);
      assert false;
    }
    Rounded(a);
    var k := CoarserIsMultiple(Significand(a), e, b);
    DivUnique(RoundNat(a), Pow2(b), k);
  }

  /** Rounding an integer gives an integer. */
  lemma RoundedIsWhole(val: int, b: nat)
    ensures Round(val * Pow2(b)) % Pow2(b) == 0
  {
    var u, one := val * Pow2(b), Pow2(b);
    if Abs(val) < SIGNIFICANDS {
      Exact(val, b);
      DivUnique(u, one, val);
    } else {
      AbsTimes(val, one);
      TimesMono(SIGNIFICANDS, Abs(val), one);
      LargeIsWhole(Abs(u), b);
      if u < 0 { NegatedWhole(RoundNat(-u), one); }
    }
  }

  lemma NegatedWhole(y: int, one: int)
    requires one > 0 && y % one == 0
    ensures (-y) % one == 0
  {
    var q := y / one;
    assert y == q * one + y % one;
    assert (-q) * one == -(q * one);
    DivUnique(-y, one, -q);
  }

  /** A pushed integer is refused exactly when its rounding has left the range. */
  lemma RefusedAbove(t: CType, b: nat, val: int, one: int, lo: int, hi: int)
    requires b >= 1 && one == Pow2(b) && lo == MinOf(t) && hi == MaxOf(t) && lo <= val <= hi
    ensures Check(t, b, Push(b, val)).None? <==> Round(val * one) >= (hi + 1) * one
  {
    var y := Round(val * one);
    MaxValueExact(t, b);
    MinExact(t, b);
    RoundedIsWhole(val, b);
    TimesMono(lo, val, one);
    RoundExact(lo * one);
    RoundIsNearestEven(val * one, lo * one);
  }

  /** How far below the limit of the type rounding reaches it: none for the 32-bit types. */
  function Reach(t: CType): int {
    match t
    case Int64 => 512
    case Uint64 => 1024
    case _ => 0
  }

  /** Checking a pushed integer fails exactly within half a step of doubles of the type's limit,
      as it does for the largest 64-bit integers. */
  lemma RefusedExactly(t: CType, b: nat, val: int)
    requires b >= 1 && MinOf(t) <= val <= MaxOf(t)
    ensures Check(t, b, Push(b, val)).None? <==> val > MaxOf(t) - Reach(t)
  {
    if t.Int32? || t.Uint32? {
      SmallSurvives(t, b, val);
    } else {
      RefusedAbove(t, b, val, Pow2(b), MinOf(t), MaxOf(t));
      if val < 0 {
        TimesMono(val, -1, Pow2(b));
        NegativeStays(val * Pow2(b));
        TimesMono(1, MaxOf(t) + 1, Pow2(b));
      } else {
        Pow2Ten(b);
        assert Pow2(b + 11) == 2048 * Pow2(b);
        if t.Int64? { Reaches(val, b, b + 10, 1024); } else { Reaches(val, b, b + 11, 2048); }
      }
    }
  }

  lemma NegativeStays(u: int)
    requires u < 0
    ensures Round(u) <= 0
  {
    RoundedNat(-u);
  }

  lemma Reaches(val: nat, b: nat, f: nat, g: int)
    requires Pow2(f) == g * Pow2(b) && g > 0 && g % 2 == 0 && val < SIGNIFICANDS * g
    ensures Round(val * Pow2(b)) >= (SIGNIFICANDS * g) * Pow2(b) <==> val >= SIGNIFICANDS * g - g / 2
  {
    var one, top := Pow2(b), (SIGNIFICANDS * g) * Pow2(b);
    TimesAssoc(SIGNIFICANDS, g, one);
    TimesMono(0, val, one);
    TimesMono(val + 1, SIGNIFICANDS * g, one);
    assert (val + 1) * one == val * one + one;
    RoundsToTop(val * one, f, g * one, top);
    HalfStep(val, SIGNIFICANDS * g, g, one);
  }

  lemma HalfStep(val: int, n: int, g: int, one: int)
    requires one > 0 && g % 2 == 0
    ensures 2 * (n * one - val * one) <= g * one <==> val >= n - g / 2
  {
    assert 2 * (n * one - val * one) == (2 * n - 2 * val) * one;
    if val >= n - g / 2 { TimesMono(2 * n - 2 * val, g, one); } else { TimesMono(g + 1, 2 * n - 2 * val, one); }
    assert (g + 1) * one == g * one + one;
  }

  /** What the check has accepted is pushed as the same double, save that negative zero comes
      back as zero. */
  lemma PushAfterCheck(t: CType, b: nat, n: Double)
    requires b >= 1 && Check(t, b, Float(n)).Some? && (n.Finite? ==> IsDouble(n.units))
    ensures Push(b, Check(t, b, Float(n)).value) == Float(if n == NegativeZero then Finite(0) else n)
  {
    AcceptsExactly(t, b, Float(n), Check(t, b, Float(n)).value);
    if n.Finite? { RoundExact(n.units); }
  }
}
