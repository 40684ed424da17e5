// Facts about the remainder that the ring walk needs.
module Modular {

  lemma AtLeast(n: int, k: int)
    requires n > 0 && k >= 1
    ensures n * k >= n
  {
    assert n * k == n + n * (k - 1);
    assert n * (k - 1) >= 0;
  }

  lemma Distribute(n: int, a: int, b: int)
    ensures n * (a - b) == n * a - n * b
    ensures n * (a + b) == n * a + n * b
  {
  }

  lemma Unique(x: int, n: int, q: int, r: int)
    requires 0 <= r < n && x == n * q + r
    ensures x % n == r && x / n == q
  {
    var q', r' := x / n, x % n;
    assert x == n * q' + r' && 0 <= r' < n;
    if q > q' {
      Distribute(n, q, q');
      AtLeast(n, q - q');
    } else if q < q' {
      Distribute(n, q', q);
      AtLeast(n, q' - q);
    }
  }

  lemma Small(x: int, n: int)
    requires 0 <= x < n
    ensures x % n == x
  {
    Unique(x, n, 0, x);
  }

  lemma Successor(x: int, n: int)
    requires n > 0
    ensures (x + 1) % n == if x % n + 1 == n then 0 else x % n + 1
  {
    var q, r := x / n, x % n;
    if r + 1 == n {
      assert x + 1 == n * (q + 1);
      Unique(x + 1, n, q + 1, 0);
    } else {
      Unique(x + 1, n, q, r + 1);
    }
  }

  // Adding to the remainder first makes no difference.
  lemma AddRemainder(x: int, y: int, n: int)
    requires n > 0
    ensures (x % n + y) % n == (x + y) % n
  {
    var q := x / n;
    var z := x % n + y;
    assert x + y == n * (z / n + q) + z % n;
    Unique(x + y, n, z / n + q, z % n);
  }

  // Moving by y leaves the remainder of x alone exactly when n divides y.
  lemma SameResidue(x: int, y: int, n: int)
    requires n > 0
    ensures (x + y) % n == x % n <==> y % n == 0
  {
    if y % n == 0 {
      assert x + y == n * (x / n + y / n) + x % n;
      Unique(x + y, n, x / n + y / n, x % n);
    }
    if (x + y) % n == x % n {
      assert y == n * ((x + y) / n - x / n);
      Unique(y, n, (x + y) / n - x / n, 0);
    }
  }
}
