/** Types and facts that several components share. */
module Common {

  datatype Option<+T> = None | Some(value: T)

  type Byte = b: int | 0 <= b < 256

  function Pow2(n: nat): (p: int)
    ensures p > 0
  {
    if n == 0 then 1 else 2 * Pow2(n - 1)
  }

  lemma Regroup<T>(a: seq<T>, b: seq<T>, c: seq<T>)
    ensures (a + b) + c == a + (b + c)
  {
  }

  lemma TailOf<T>(x: T, s: seq<T>)
    ensures ([x] + s)[1..] == s && ([x] + s)[0] == x
  {
  }

  lemma TimesAssoc(x: int, y: int, z: int)
    ensures (x * y) * z == x * (y * z)
  {
  }

  lemma TimesMono(x: int, y: int, p: int)
    requires x <= y && p >= 0
    ensures x * p <= y * p
  {
    assert (y - x) * p >= 0;
  }

  lemma TimesCancel(x: int, y: int, p: int)
    requires x * p <= y * p && p > 0
    ensures x <= y
  {
    if x > y {
      TimesMono(y + 1, x, p);
      assert false;
    }
  }

  lemma DivAtLeast(a: int, p: int, q: int)
    requires p > 0 && a >= q * p
    ensures a / p >= q
  {
    if a / p < q {
      TimesMono(a / p + 1, q, p);
      assert false;
    }
  }

  lemma DivUnique(a: int, p: int, q: int)
    requires p > 0 && q * p <= a < q * p + p
    ensures a / p == q && a % p == a - q * p
  {
    DivAtLeast(a, p, q);
    if a / p > q {
      TimesMono(q + 1, a / p, p);
      assert false;
    }
    assert a == (a / p) * p + a % p;
  }
}
