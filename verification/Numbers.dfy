/** The arithmetic shared by the models: least and greatest, products, rounding. */
module Numbers {

  function Min(a: nat, b: nat): nat {
    if a <= b then a else b
  }

  function Max(a: nat, b: nat): nat {
    if a >= b then a else b
  }

  // Products are kept behind a name: the solver needs their laws, not their definition.
  function Mul(a: int, b: int): (r: int)
    ensures 0 <= a && 0 <= b ==> 0 <= r
  {
    a * b
  }

  lemma MulSucc(a: int, b: int)
    ensures Mul(a + 1, b) == Mul(a, b) + b
  {
  }

  lemma MulLe(a: nat, x: int, y: int)
    requires x <= y
    ensures Mul(a, x) <= Mul(a, y) && Mul(x, a) <= Mul(y, a)
  {
  }

  lemma MulPlus(a: int, x: int, y: int)
    ensures Mul(a, x + y) == Mul(a, x) + Mul(a, y)
    ensures Mul(x + y, a) == Mul(x, a) + Mul(y, a)
  {
  }

  // Multiples of `y` are at least `y` apart.
  lemma SameMultiple(p: int, q: int, y: nat)
    requires 0 < y && Mul(p, y) < Mul(q, y) + y && Mul(q, y) < Mul(p, y) + y
    ensures p == q
  {
    hide Mul;
    MulSucc(p, y);
    MulSucc(q, y);
    if p < q {
      MulLe(y, p + 1, q);
    } else if q < p {
      MulLe(y, q + 1, p);
    }
  }

  lemma DivMod(n: nat, y: nat)
    requires y > 0
    ensures n == Mul(n / y, y) + n % y && n % y < y
  {
  }

  lemma QuotientUnique(n: nat, q: nat, r: nat, y: nat)
    requires y > 0 && n == q * y + r && r < y
    ensures n / y == q
  {
    DivMod(n, y);
    assert n == Mul(q, y) + r;
    SameMultiple(n / y, q, y);
  }

  /** roundup() */
  function RoundUp(x: nat, y: nat): nat
    requires y > 0
  {
    (x + (y - 1)) / y * y
  }

  lemma RoundUpBounds(x: nat, y: nat)
    requires y > 0
    ensures x <= RoundUp(x, y) < x + y
  {
  }
}
