/** Bitwise `&` on non-negative integers, as Python's `ipaddress` uses it on addresses, and what a
    netmask does: masking a prefix is membership in an interval. */
module Bits {

  function Pow2(n: nat): (p: nat)
    ensures p >= 1
  {
    if n == 0 then 1 else 2 * Pow2(n - 1)
  }

  /** `x & y`, bit by bit from the low end. */
  function And(x: nat, y: nat): nat
    decreases x
  {
    if x == 0 || y == 0 then 0
    else (if x % 2 == 1 && y % 2 == 1 then 1 else 0) + 2 * And(x / 2, y / 2)
  }

  /** Ones above zeros. */
  function HighOnes(ones: nat, zeros: nat): nat
  {
    Product(Pow2(ones) - 1, Pow2(zeros))
  }

  function Product(a: nat, b: nat): nat { a * b }

  /** The netmask of a prefix: `width` bits, the first `prefix` of them ones (all ones without the
      host bits). */
  function Netmask(width: nat, prefix: nat): nat
    requires prefix <= width
  {
    HighOnes(prefix, width - prefix)
  }

  lemma {:induction false} Pow2Add(a: nat, b: nat)
    ensures Pow2(a + b) == Pow2(a) * Pow2(b)
  {
    if a > 0 {
      Pow2Add(a - 1, b);
    }
  }

  lemma MultiplesAreFar(d: int, m: int)
    requires m > 0
    ensures d >= 1 ==> d * m >= m
    ensures d <= -1 ==> d * m <= -m
  {
    if d >= 1 { assert (d - 1) * m >= 0; }
    if d <= -1 { assert (-d - 1) * m >= 0; }
  }

  /** Quotient and remainder are determined by their defining equation. */
  lemma DivModUnique(x: int, m: int, q: int, r: int)
    requires m > 0 && x == q * m + r && 0 <= r < m
    ensures x / m == q && x % m == r
  {
    var q', r' := x / m, x % m;
    DivisionEquation(x, m);
    assert (q - q') * m == q * m - q' * m;
    MultiplesAreFar(q - q', m);
  }

  lemma DivisionEquation(x: int, m: int)
    requires m > 0
    ensures x == x / m * m + x % m && 0 <= x % m < m
  {
  }

  /** The remainder by an even power through the halved number. */
  lemma HalvedRemainder(x: nat, m: nat)
    requires m > 0
    ensures x % (2 * m) == 2 * (x / 2 % m) + x % 2
  {
    var q, r := x / 2 / m, x / 2 % m;
    assert x / 2 == q * m + r;
    assert x == 2 * (x / 2) + x % 2;
    assert x == q * (2 * m) + (2 * r + x % 2);
    DivModUnique(x, 2 * m, q, 2 * r + x % 2);
  }

  /** Masking with low ones takes the remainder. */
  lemma {:induction false} AndLowOnes(x: nat, p: nat)
    ensures And(x, Pow2(p) - 1) == x % Pow2(p)
    decreases p
  {
    if p > 0 {
      var half := Pow2(p - 1);
      assert (Pow2(p) - 1) / 2 == half - 1 && (Pow2(p) - 1) % 2 == 1;
      AndLowOnes(x / 2, p - 1);
      HalvedRemainder(x, half);
    }
  }

  /** Masking with high ones clears the host bits. */
  lemma {:induction false} AndHighOnes(x: nat, p: nat, k: nat)
    requires x < Pow2(p + k)
    ensures And(x, HighOnes(p, k)) == x - x % Pow2(k)
    decreases k
  {
    if k == 0 {
      HighOnesBase(x, p);
    } else {
      AndHighOnes(x / 2, p, k - 1);
      HighOnesStep(x, p, k);
    }
  }

  lemma HighOnesBase(x: nat, p: nat)
    requires x < Pow2(p)
    ensures And(x, HighOnes(p, 0)) == x - x % Pow2(0)
  {
    assert HighOnes(p, 0) == Pow2(p) - 1;
    AndLowOnes(x, p);
    DivModUnique(x, Pow2(p), 0, x);
  }

  lemma HighOnesStep(x: nat, p: nat, k: nat)
    requires k > 0 && And(x / 2, HighOnes(p, k - 1)) == x / 2 - x / 2 % Pow2(k - 1)
    ensures And(x, HighOnes(p, k)) == x - x % Pow2(k)
  {
    var mask := HighOnes(p, k - 1);
    HighOnesDouble(p, k);
    ClearedAbove(x, Pow2(k - 1));
  }

  lemma ClearedAbove(x: nat, half: nat)
    requires half > 0
    ensures 2 * (x / 2 - x / 2 % half) == x - x % (2 * half)
  {
    HalvedRemainder(x, half);
  }

  lemma HighOnesDouble(p: nat, k: nat)
    requires k > 0
    ensures HighOnes(p, k) == 2 * HighOnes(p, k - 1)
  {
    var ones, half := Pow2(p) - 1, Pow2(k - 1);
    assert ones * (2 * half) == 2 * (ones * half);
  }

  /** Mask membership is interval membership, for every width, prefix and address. */
  lemma MaskIsInterval(width: nat, prefix: nat, base: nat, ip: nat)
    requires prefix <= width && ip < Pow2(width) && base % Pow2(width - prefix) == 0
    ensures And(ip, Netmask(width, prefix)) == base <==> base <= ip < base + Pow2(width - prefix)
  {
    var size := Pow2(width - prefix);
    AndHighOnes(ip, prefix, width - prefix);
    DivisionEquation(ip, size);
    if base <= ip < base + size {
      DivisionEquation(base, size);
      DivModUnique(ip, size, base / size, ip - base);
    }
  }
}
