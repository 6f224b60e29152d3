/** Division facts used by the file system and the clock arithmetic. */
module Arith {

  lemma MulMono(a: int, b: int, m: nat)
    requires a <= b
    ensures a * m <= b * m
  {
  }

  lemma {:induction false} DivUnique(x: nat, m: nat, q: nat, r: nat)
    requires r < m && x == q * m + r
    ensures x / m == q && x % m == r
  {
    var k, s := x / m, x % m;
    assert x == k * m + s && s < m;
    if k > q {
      MulMono(q + 1, k, m);
    } else if k < q {
      MulMono(k + 1, q, m);
    }
  }

  lemma MulAdd(a: int, b: int, m: int)
    ensures (a + b) * m == a * m + b * m
  {
  }

  lemma MulTen(a: int, b: int, m: int)
    ensures (10 * a + b) * m == a * (10 * m) + b * m
  {
  }
}
