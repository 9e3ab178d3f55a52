/** Powers of two and division by them, as the code's shifts use them. */
module Arith {

  function Pow2(n: nat): (p: nat)
    ensures p >= 1
  {
    if n == 0 then 1 else 2 * Pow2(n - 1)
  }

  /** `x << k`, where no bit is lost. */
  function Shl(x: nat, k: nat): nat {
    x * Pow2(k)
  }

  /** `x >> k`. */
  function Shr(x: nat, k: nat): nat {
    Quotient(x, Pow2(k))
  }

  function Quotient(x: nat, s: nat): nat
    requires s > 0
  {
    x / s
  }

  lemma {:induction false} Pow2Monotone(a: nat, b: nat)
    requires a <= b
    ensures Pow2(a) <= Pow2(b)
  {
    if a < b {
      Pow2Monotone(a, b - 1);
    }
  }

  lemma {:induction false} Pow2Add(a: nat, b: nat)
    ensures Pow2(a + b) == Pow2(a) * Pow2(b)
  {
    if a > 0 {
      Pow2Add(a - 1, b);
      MulAssoc(2, Pow2(a - 1), Pow2(b));
    }
  }

  lemma MulAssoc(a: int, b: int, c: int)
    ensures a * b * c == a * (b * c)
  {
  }

  lemma MulMonotone(a: int, b: int, s: nat)
    requires a <= b
    ensures a * s <= b * s
  {
  }

  lemma MulAdd(a: int, b: int, s: int)
    ensures (a + b) * s == a * s + b * s
  {
  }

  /** Quotient and remainder are the only ones there are. */
  lemma DivUnique(x: int, q: int, r: int, s: nat)
    requires s > 0 && 0 <= r < s && x == q * s + r
    ensures x / s == q && x % s == r
  {
    var p := x / s;
    assert x == p * s + x % s;
    if p < q {
      MulMonotone(p + 1, q, s);
      MulAdd(p, 1, s);
      assert false;
    }
    if q < p {
      MulMonotone(q + 1, p, s);
      MulAdd(q, 1, s);
      assert false;
    }
  }
}
