/** Division, remainder and powers of two over the naturals. */
module Arithmetic {

  lemma MulMono(a: nat, b: nat, c: nat)
    requires a <= b
    ensures a * c <= b * c && c * a <= c * b
  {}

  lemma MulAssoc(a: int, b: int, c: int)
    ensures (a * b) * c == a * (b * c)
  {}

  lemma Distribute(a: int, b: int, c: int)
    ensures (a + b) * c == a * c + b * c
    ensures (a - b) * c == a * c - b * c
  {}

  lemma DivMod(n: nat, m: nat)
    requires m > 0
    ensures n == (n / m) * m + n % m && 0 <= n % m < m && n / m >= 0
  {}

  /** Quotient and remainder are determined by any decomposition q·m + r with r below m. */
  lemma Divided(q: nat, m: nat, r: nat)
    requires r < m
    ensures (q * m + r) / m == q && (q * m + r) % m == r
  {
    var n := q * m + r;
    DivMod(n, m);
    if n / m < q {
      MulMono(n / m + 1, q, m);
      Distribute(n / m, 1, m);
    } else if n / m > q {
      MulMono(q + 1, n / m, m);
      Distribute(q, 1, m);
    }
  }

  lemma DivDiv(n: nat, a: nat, b: nat)
    requires a > 0 && b > 0
    ensures a * b > 0 && n / (a * b) == n / a / b
    ensures n % (a * b) == (n / a % b) * a + n % a
  {
    var h := n / a;
    var q, s, t := h / b, h % b, n % a;
    DivMod(n, a);
    DivMod(h, b);
    MulMono(1, b, a);
    Distribute(q * b, s, a);
    MulAssoc(q, b, a);
    MulMono(s, b - 1, a);
    Distribute(b, 1, a);
    assert n == q * (a * b) + (s * a + t);
    Divided(q, a * b, s * a + t);
  }

  lemma ModKeepsLow(n: nat, a: nat, b: nat)
    requires a > 0 && b > 0
    ensures a * b > 0 && n % (a * b) % a == n % a
    ensures n % (a * b) / a == n / a % b
  {
    DivDiv(n, a, b);
    Divided(n / a % b, a, n % a);
  }

  /** Appending low digits commutes with dropping high ones. */
  lemma ModShiftIn(n: nat, m: nat, k: nat, v: nat)
    requires m > 0
    ensures ((n % m) * k + v) % m == (n * k + v) % m
  {
    var q, r := n / m, n % m;
    var x := r * k + v;
    DivMod(n, m);
    DivMod(x, m);
    Distribute(q * m, r, k);
    MulAssoc(q, m, k);
    MulAssoc(q, k, m);
    assert q * (m * k) == q * (k * m);
    Distribute(q * k, x / m, m);
    assert n * k + v == (q * k + x / m) * m + x % m;
    Divided(q * k + x / m, m, x % m);
  }

  /** A product's quotient is below b when the product is below a·b. */
  lemma DivBelow(n: nat, a: nat, b: nat)
    requires a > 0 && n < b * a
    ensures n / a < b
  {
    DivMod(n, a);
    if n / a >= b {
      MulMono(b, n / a, a);
    }
  }

  function Pow2(n: nat): (p: nat)
    ensures p >= 1
  {
    if n == 0 then 1 else 2 * Pow2(n - 1)
  }

  lemma SmallPowers()
    ensures Pow2(0) == 1 && Pow2(1) == 2 && Pow2(2) == 4 && Pow2(3) == 8 && Pow2(4) == 16
    ensures Pow2(5) == 32 && Pow2(6) == 64 && Pow2(7) == 128 && Pow2(8) == 256
  {
    assert Pow2(4) == 16;
    assert Pow2(6) == 64;
  }

  lemma {:induction false} PowSum(a: nat, b: nat)
    ensures Pow2(a + b) == Pow2(a) * Pow2(b)
  {
    if a > 0 {
      PowSum(a - 1, b);
      MulAssoc(2, Pow2(a - 1), Pow2(b));
      assert Pow2(a + b) == 2 * Pow2(a - 1 + b);
    }
  }

  /** Left shift, right shift, and the mask of the low k bits. */
  function Shl(n: nat, k: nat): nat { n * Pow2(k) }

  function Shr(n: nat, k: nat): nat { DivMod(n, Pow2(k)); n / Pow2(k) }

  function Low(n: nat, k: nat): (r: nat)
    ensures r < Pow2(k)
  {
    n % Pow2(k)
  }

  lemma HalfShift(n: nat, k: nat)
    requires k > 0
    ensures Shl(n, k) == 2 * Shl(n, k - 1) && Pow2(k) == 2 * Pow2(k - 1)
  {
    var p := Pow2(k - 1);
    assert Pow2(k) == 2 * p;
    hide Pow2;
    MulAssoc(n, 2, p);
    MulAssoc(2, n, p);
  }

  /** Adding an even multiple of p changes no bit of the quotient by p below its own. */
  lemma QuotientParity(high: nat, p: nat, v: nat)
    requires p > 0 && high % 2 == 0
    ensures (high * p + v) / p % 2 == v / p % 2
  {
    var q, r := v / p, v % p;
    DivMod(v, p);
    Distribute(high, q, p);
    Divided(high + q, p, r);
    var whole := (high * p + v) / p;
    assert whole == high + q;
    hide *;
    assert (high + q) % 2 == q % 2;
  }
}
