/** Facts about products, quotients and remainders, with the product hidden behind a name so that each of them
    is proved on its own. */
module Arithmetic {

  function Product(a: nat, b: nat): nat { a * b }

  lemma ProductNext(a: nat, c: nat)
    ensures Product(a + 1, c) == Product(a, c) + c
  {
  }

  lemma {:induction false} ProductGap(a: nat, b: nat, c: nat)
    requires a > b
    ensures Product(a, c) >= Product(b, c) + c
  {
    hide Product;
    ProductNext(a - 1, c);
    if a - 1 > b {
      ProductGap(a - 1, b, c);
    }
  }

  lemma QuotientRemainder(a: nat, c: nat)
    requires c > 0
    ensures a == Product(a / c, c) + a % c && a % c < c
  {
  }

  /** Quotient and remainder are determined. */
  lemma RemainderUnique(a: nat, c: nat, q: nat, r: nat)
    requires r < c && a == Product(q, c) + r
    ensures a % c == r
  {
    QuotientRemainder(a, c);
    hide Product;
    if a / c > q {
      ProductGap(a / c, q, c);
    } else if a / c < q {
      ProductGap(q, a / c, c);
    }
  }

  lemma ProductSum(a: nat, b: nat, c: nat)
    ensures Product(a + b, c) == Product(a, c) + Product(b, c)
    ensures Product(a, 2 * c) == 2 * Product(a, c)
  {
  }

  function Remainder(x: nat, m: nat): (r: nat)
    requires m > 0
    ensures r < m
  {
    x % m
  }

  /** Remainders of doubles. */
  lemma DoubleRemainder(x: nat, m: nat)
    requires m > 0
    ensures Remainder(2 * x, 2 * m) == 2 * Remainder(x, m)
  {
    QuotientRemainder(x, m);
    ProductSum(x / m, x / m, m);
    hide Product;
    RemainderUnique(2 * x, 2 * m, x / m, 2 * (x % m));
  }

  /** A remainder by 2m is the one by m, or m more. */
  lemma HalvedRemainder(x: nat, m: nat)
    requires m > 0
    ensures Remainder(x, 2 * m) == Remainder(x, m) || Remainder(x, 2 * m) == Remainder(x, m) + m
  {
    var q, r := x / (2 * m), x % (2 * m);
    QuotientRemainder(x, 2 * m);
    ProductSum(q, q, m);
    ProductNext(q + q, m);
    hide Product;
    if r < m {
      RemainderUnique(x, m, q + q, r);
    } else {
      RemainderUnique(x, m, q + q + 1, r - m);
    }
  }

  /** Remainders that do not overflow add up. */
  lemma SumRemainder(x: nat, y: nat, m: nat)
    requires m > 0 && Remainder(x, m) + Remainder(y, m) < m
    ensures Remainder(x + y, m) == Remainder(x, m) + Remainder(y, m)
  {
    QuotientRemainder(x, m);
    QuotientRemainder(y, m);
    ProductSum(x / m, y / m, m);
    hide Product;
    RemainderUnique(x + y, m, x / m + y / m, x % m + y % m);
  }

  function Power(e: nat): (r: nat)
    ensures r > 0
  {
    if e == 0 then 1 else 2 * Power(e - 1)
  }

  lemma NextPower(e: nat)
    ensures Power(0) == 1 && Power(e + 1) == 2 * Power(e)
  {
  }

  lemma {:induction false} PowerSum(a: nat, b: nat)
    ensures Power(a + b) == Power(a) * Power(b)
  {
    if a > 0 {
      PowerSum(a - 1, b);
      assert Power(a) * Power(b) == 2 * (Power(a - 1) * Power(b));
    }
  }

  /** The largest power of two that divides n. */
  function LowBit(n: nat): (r: nat)
    requires n > 0
    ensures 0 < r <= n
  {
    if n % 2 == 1 then 1 else 2 * LowBit(n / 2)
  }
}
