// Congruence modulo `m`, as a calculus for the field arithmetic of the curve.
module ModRing {
  // `n` times `m`, by addition.
  function Repeated(m: int, n: nat): (sum: int) {
    if n == 0 then 0 else m + Repeated(m, n - 1)
  }

  lemma {:induction false} RepeatedIs(m: int, n: nat)
    ensures Repeated(m, n) == n * m
  {
    if n > 0 {
      RepeatedIs(m, n - 1);
      assert n * m == m + (n - 1) * m;
    }
  }

  // One of the two is the other and some times `m`.
  ghost predicate Cong(a: int, b: int, m: int)
    requires m > 0
  {
    exists n: nat :: a == b + Repeated(m, n) || b == a + Repeated(m, n)
  }

  lemma Because(a: int, b: int, k: int, m: int)
    requires m > 0 && a == b + k * m
    ensures Cong(a, b, m)
  {
    if k >= 0 {
      RepeatedIs(m, k);
    } else {
      RepeatedIs(m, -k);
      var n := 0 - k;
      assert n * m == -(k * m);
    }
  }

  lemma Quotient(a: int, b: int, m: int) returns (k: int)
    requires m > 0 && Cong(a, b, m)
    ensures a == b + k * m
  {
    var n: nat :| a == b + Repeated(m, n) || b == a + Repeated(m, n);
    RepeatedIs(m, n);
    if a == b + Repeated(m, n) {
      k := n;
    } else {
      k := 0 - n;
      assert k * m == -(n * m);
    }
  }

  lemma Same(a: int, m: int)
    requires m > 0
    ensures Cong(a, a, m)
  {
    Because(a, a, 0, m);
  }

  // Reducing changes nothing.
  lemma Reduced(a: int, m: int)
    requires m > 0
    ensures Cong(a % m, a, m)
  {
    assert a == a / m * m + a % m;
    Because(a % m, a, -(a / m), m);
  }

  lemma Symmetric(a: int, b: int, m: int)
    requires m > 0 && Cong(a, b, m)
    ensures Cong(b, a, m)
  {
    var k := Quotient(a, b, m);
    Because(b, a, -k, m);
  }

  lemma Transitive(a: int, b: int, c: int, m: int)
    requires m > 0 && Cong(a, b, m) && Cong(b, c, m)
    ensures Cong(a, c, m)
  {
    var k := Quotient(a, b, m);
    var j := Quotient(b, c, m);
    assert k * m + j * m == (k + j) * m;
    Because(a, c, k + j, m);
  }

  lemma Sum(a: int, a': int, b: int, b': int, m: int)
    requires m > 0 && Cong(a, a', m) && Cong(b, b', m)
    ensures Cong(a + b, a' + b', m)
  {
    var k := Quotient(a, a', m);
    var j := Quotient(b, b', m);
    assert k * m + j * m == (k + j) * m;
    Because(a + b, a' + b', k + j, m);
  }

  lemma Difference(a: int, a': int, b: int, b': int, m: int)
    requires m > 0 && Cong(a, a', m) && Cong(b, b', m)
    ensures Cong(a - b, a' - b', m)
  {
    var k := Quotient(a, a', m);
    var j := Quotient(b, b', m);
    assert k * m - j * m == (k - j) * m;
    Because(a - b, a' - b', k - j, m);
  }

  lemma Product(a: int, a': int, b: int, b': int, m: int)
    requires m > 0 && Cong(a, a', m) && Cong(b, b', m)
    ensures Cong(a * b, a' * b', m)
  {
    var k := Quotient(a, a', m);
    var j := Quotient(b, b', m);
    var q := a' * j + k * b' + k * j * m;
    Expanded(a', k, b', j, m);
    Because(a * b, a' * b', q, m);
  }

  lemma Expanded(a: int, k: int, b: int, j: int, m: int)
    ensures (a + k * m) * (b + j * m) == a * b + (a * j + k * b + k * j * m) * m
  {
    var u, v := k * m, j * m;
    assert (a + u) * (b + v) == a * b + a * v + u * b + u * v;
    assert u * v == k * j * m * m;
    assert (a * j + k * b + k * j * m) * m == a * j * m + k * b * m + k * j * m * m;
  }

  lemma Scaled(c: int, a: int, b: int, m: int)
    requires m > 0 && Cong(a, b, m)
    ensures Cong(c * a, c * b, m)
  {
    Same(c, m);
    Product(c, c, a, b, m);
  }
}
