/** Facts about products and remainders that the verifier does not find unaided. */
module Arithmetic {
  lemma ProductAtLeast(a: int, b: int, m: int)
    requires a >= b && m > 0
    ensures a * m >= b * m
    ensures a > b ==> a * m >= b * m + m
  {
    var d := a - b;
    assert a * m == b * m + d * m;
    if d > 0 {
      assert d * m == m + (d - 1) * m;
      assert (d - 1) * m >= 0;
    }
  }

  /** A number is divided in one way only. */
  lemma DivisionIsUnique(x: int, m: int, q: int, r: int)
    requires m > 0 && 0 <= r < m && x == q * m + r
    ensures x / m == q && x % m == r
  {
    var p, s := x / m, x % m;
    assert x == p * m + s;
    if p < q {
      ProductAtLeast(q, p, m);
    } else if q < p {
      ProductAtLeast(p, q, m);
    }
  }

  lemma Division(x: int, m: int)
    requires m > 0
    ensures x == x / m * m + x % m && 0 <= x % m < m
  {}

  lemma MultipleHasNoRemainder(q: int, m: int)
    requires m > 0
    ensures q * m % m == 0 && q * m / m == q
  {
    DivisionIsUnique(q * m, m, q, 0);
  }

  lemma NegatedMultiple(x: int, m: int)
    requires m > 0
    ensures x % m == 0 <==> -x % m == 0
  {
    Division(x, m);
    Division(-x, m);
    if x % m == 0 {
      assert -x == (-(x / m)) * m;
      MultipleHasNoRemainder(-(x / m), m);
    }
    if -x % m == 0 {
      assert x == (-(-x / m)) * m;
      MultipleHasNoRemainder(-(-x / m), m);
    }
  }

  /** Counting on by `n` from weekday `a` reaches weekday `b` exactly in steps of seven. */
  lemma CountingOn(a: int, b: int, n: int)
    requires 0 <= a <= 6 && 0 <= b <= 6
    ensures (a + n) % 7 == b <==> (n - (b - a) % 7) % 7 == 0
  {
    var x := (b - a) % 7;
    assert b == a + x || b == a + x - 7;
    var q, p := (a + n) / 7, (n - x) / 7;
    if (a + n) % 7 == b {
      if b == a + x {
        DivisionIsUnique(n - x, 7, q, 0);
      } else {
        DivisionIsUnique(n - x, 7, q - 1, 0);
      }
    }
    if (n - x) % 7 == 0 {
      if b == a + x {
        DivisionIsUnique(a + n, 7, p, b);
      } else {
        DivisionIsUnique(a + n, 7, p + 1, b);
      }
    }
  }

  /** Quotients step at multiples. */
  lemma NextMultiple(n: int, m: int)
    requires m > 1
    ensures n / m == (n - 1) / m + (if n % m == 0 then 1 else 0)
    ensures n % m == 0 <==> (n - 1) % m == m - 1
  {
    Division(n - 1, m);
    var q, r := (n - 1) / m, (n - 1) % m;
    if r == m - 1 {
      assert (q + 1) * m == q * m + m;
      DivisionIsUnique(n, m, q + 1, 0);
    } else {
      DivisionIsUnique(n, m, q, r + 1);
    }
  }

  lemma WholeWeekLater(n: int)
    ensures (n + 7) % 7 == n % 7 && (n + 7) / 7 == n / 7 + 1
  {
    DivisionIsUnique(n + 7, 7, n / 7 + 1, n % 7);
  }
}
