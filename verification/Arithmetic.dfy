/** The few facts about multiplication and Euclidean division that the solver needs named. */
module Arithmetic {

  lemma DivGe(x: int, m: int, q: int)
    requires m > 0
    ensures q <= x / m <==> q * m <= x
  {
    var d, r := x / m, x % m;
    assert x == d * m + r && 0 <= r < m;
    if q <= d {
      assert q * m <= d * m by { MulMono(q, d, m); }
    } else {
      assert (d + 1) * m <= q * m by { MulMono(d + 1, q, m); }
    }
  }

  lemma MulMono(a: int, b: int, m: int)
    requires a <= b && m >= 0
    ensures a * m <= b * m
  {
    assert (b - a) * m >= 0;
  }

  lemma CancelLess(a: int, b: int, c: int)
    requires a * c < b * c && c > 0
    ensures a < b
  {
    if b <= a {
      MulMono(b, a, c);
    }
  }

  lemma ModZero(q: nat, n: nat)
    requires n > 0
    ensures (q * n) % n == 0
  {
    DivGe(q * n, n, q);
    DivGe(q * n, n, q + 1);
    assert (q + 1) * n == q * n + n;
    assert q * n / n == q;
  }

  lemma QuotientIs(x: int, c: int, q: int, r: int)
    requires c > 0 && 0 <= r < c && x == q * c + r
    ensures x / c == q && x % c == r
  {
    DivGe(x, c, q);
    DivGe(x, c, q + 1);
    assert (q + 1) * c == q * c + c;
  }

  lemma SmallMod(x: int, m: int)
    requires 0 <= x < m
    ensures x % m == x
  {
  }

  lemma ModAdd(x: int, y: int, m: int)
    requires m > 0
    ensures (x % m + y) % m == (x + y) % m
  {
    var a := x % m + y;
    assert x == x / m * m + x % m;
    assert x + y == (x / m + a / m) * m + a % m;
    QuotientIs(x + y, m, x / m + a / m, a % m);
  }

  lemma DivDiv(v: nat, b: nat, c: nat)
    requires b > 0 && c > 0
    ensures b * c > 0 && v / b / c == v / (b * c)
  {
    var u, q := v / b, v / b / c;
    assert v == (q * c + u % c) * b + v % b;
    assert v == q * (b * c) + (u % c * b + v % b);
    MulMono(u % c, c - 1, b);
    QuotientIs(v, b * c, q, u % c * b + v % b);
  }
}
