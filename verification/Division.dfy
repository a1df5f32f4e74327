/** Division and minimum of natural numbers. */
module Division {

  function Min(a: nat, b: nat): nat { if a < b then a else b }

  lemma DivMonotone(a: nat, b: nat, c: nat)
    requires a <= b && c > 0
    ensures a / c <= b / c
  {
    if a / c > b / c {
      assert b == c * (b / c) + b % c;
      assert c * (a / c) >= c * (b / c + 1) by { MulMonotone(c, b / c + 1, a / c); }
      assert false;
    }
  }

  lemma MulMonotone(c: nat, x: nat, y: nat)
    requires x <= y
    ensures c * x <= c * y
  {
  }

  lemma DivModUnique(a: nat, c: nat, q: nat, r: nat)
    requires c > 0 && a == q * c + r && r < c
    ensures a / c == q && a % c == r
  {
    if a / c < q {
      MulMonotone(c, a / c + 1, q);
      assert false;
    }
    if a / c > q {
      MulMonotone(c, q + 1, a / c);
      assert false;
    }
  }
}
