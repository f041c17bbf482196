// Ed25519 signing from an expanded key (sections 5.1.4 to 5.1.7 of RFC 8032). The curve
// constant and the base point are parameters, and so is the hash.
module Ed25519 {
  import opened Bytes
  import opened Wrappers
  import opened ModRing

  // 2^255 - 19, and the order of the base point.
  const P := 0x7fffffffffffffffffffffffffffffffffffffffffffffffffffffffffffffed
  const L := 0x1000000000000000000000000000000014def9dea2f79cd65812631a5cf5d3ed

  // 2^255, the bit that carries the sign of an encoded point.
  const TOP_BIT := 0x8000000000000000000000000000000000000000000000000000000000000000

  // Extended twisted Edwards coordinates: x = X/Z, y = Y/Z, x*y = T/Z.
  datatype Point = Point(x: int, y: int, z: int, t: int)

  const IDENTITY := Point(0, 1, 1, 0)

  function Add(d: int, p: Point, q: Point): (sum: Point) {
    var a := (p.y - p.x) * (q.y - q.x) % P;
    var b := (p.y + p.x) * (q.y + q.x) % P;
    var c := p.t * 2 * d * q.t % P;
    var dd := p.z * 2 * q.z % P;
    Assembled(a, b, c, dd)
  }

  function Assembled(a: int, b: int, c: int, d: int): (sum: Point) {
    var e, f, g, h := (b - a) % P, (d - c) % P, (d + c) % P, (b + a) % P;
    Point(e * f % P, g * h % P, f * g % P, e * h % P)
  }

  // -- what addition means -----------------------------------------------------

  // The coordinate law, and the curve equation -x^2 + y^2 = 1 + d x^2 y^2, both scaled by
  // powers of Z.
  ghost predicate Extended(p: Point) {
    Cong(p.x * p.y, p.z * p.t, P)
  }

  ghost predicate OnCurve(d: int, p: Point) {
    && Extended(p)
    && Cong(p.y * p.y - p.x * p.x, p.z * p.z + d * (p.t * p.t), P)
  }

  // The four factors the coordinates of a sum are products of, each taken once where the
  // formulas of section 5.1.4 take it twice.
  datatype Factors = Factors(e: int, f: int, g: int, h: int)

  function FactorsOf(d: int, p: Point, q: Point): (k: Factors) {
    Factors(p.x * q.y + q.x * p.y,
            p.z * q.z - d * (p.t * q.t),
            p.z * q.z + d * (p.t * q.t),
            p.y * q.y + p.x * q.x)
  }

  lemma AddFactors(d: int, p: Point, q: Point)
    ensures
      var k, sum := FactorsOf(d, p, q), Add(d, p, q);
      && Cong(sum.x, 4 * (k.e * k.f), P)
      && Cong(sum.y, 4 * (k.g * k.h), P)
      && Cong(sum.z, 4 * (k.f * k.g), P)
      && Cong(sum.t, 4 * (k.e * k.h), P)
  {
    hide Cong, Assembled;
    BeforeReducing(d, p, q);
    AssembledFactors((p.y - p.x) * (q.y - q.x), (p.y + p.x) * (q.y + q.x), p.t * 2 * d * q.t, p.z * 2 * q.z,
                     FactorsOf(d, p, q));
  }

  lemma AssembledFactors(a0: int, b0: int, c0: int, d0: int, k: Factors)
    requires b0 - a0 == 2 * k.e && b0 + a0 == 2 * k.h && d0 - c0 == 2 * k.f && d0 + c0 == 2 * k.g
    ensures
      var sum := Assembled(a0 % P, b0 % P, c0 % P, d0 % P);
      && Cong(sum.x, 4 * (k.e * k.f), P)
      && Cong(sum.y, 4 * (k.g * k.h), P)
      && Cong(sum.z, 4 * (k.f * k.g), P)
      && Cong(sum.t, 4 * (k.e * k.h), P)
  {
    hide Cong;
    DifferenceReduced(b0, a0, k.e);
    DifferenceReduced(d0, c0, k.f);
    SumReduced(d0, c0, k.g);
    SumReduced(b0, a0, k.h);
    var a, b, c, d := a0 % P, b0 % P, c0 % P, d0 % P;
    FourTimes((b - a) % P, k.e, (d - c) % P, k.f);
    FourTimes((d + c) % P, k.g, (b + a) % P, k.h);
    FourTimes((d - c) % P, k.f, (d + c) % P, k.g);
    FourTimes((b - a) % P, k.e, (b + a) % P, k.h);
  }

  lemma BeforeReducing(d: int, p: Point, q: Point)
    ensures
      var k := FactorsOf(d, p, q);
      var a0, b0 := (p.y - p.x) * (q.y - q.x), (p.y + p.x) * (q.y + q.x);
      var c0, d0 := p.t * 2 * d * q.t, p.z * 2 * q.z;
      b0 - a0 == 2 * k.e && b0 + a0 == 2 * k.h && d0 - c0 == 2 * k.f && d0 + c0 == 2 * k.g
  {
  }

  lemma DifferenceReduced(a: int, b: int, half: int)
    requires a - b == 2 * half
    ensures Cong((a % P - b % P) % P, 2 * half, P)
  {
    hide Cong;
    Reduced(a, P);
    Reduced(b, P);
    Difference(a % P, a, b % P, b, P);
    Reduced(a % P - b % P, P);
    Transitive((a % P - b % P) % P, a % P - b % P, a - b, P);
  }

  lemma SumReduced(a: int, b: int, half: int)
    requires a + b == 2 * half
    ensures Cong((a % P + b % P) % P, 2 * half, P)
  {
    hide Cong;
    Reduced(a, P);
    Reduced(b, P);
    Sum(a % P, a, b % P, b, P);
    Reduced(a % P + b % P, P);
    Transitive((a % P + b % P) % P, a % P + b % P, a + b, P);
  }

  lemma FourTimes(a: int, a': int, b: int, b': int)
    requires Cong(a, 2 * a', P) && Cong(b, 2 * b', P)
    ensures Cong(a * b % P, 4 * (a' * b'), P)
  {
    Product(a, 2 * a', b, 2 * b', P);
    assert 2 * a' * (2 * b') == 4 * (a' * b');
    Reduced(a * b, P);
    Transitive(a * b % P, a * b, 4 * (a' * b'), P);
  }

  // Whatever is added, the sum keeps the coordinate law.
  lemma SumIsExtended(d: int, p: Point, q: Point)
    ensures Extended(Add(d, p, q))
  {
    hide Cong;
    AddFactors(d, p, q);
    var k, sum := FactorsOf(d, p, q), Add(d, p, q);
    var n := 4 * (k.e * k.f) * (4 * (k.g * k.h));
    Product(sum.x, 4 * (k.e * k.f), sum.y, 4 * (k.g * k.h), P);
    Product(sum.z, 4 * (k.f * k.g), sum.t, 4 * (k.e * k.h), P);
    SameProduct(k);
    Symmetric(sum.z * sum.t, n, P);
    Transitive(sum.x * sum.y, n, sum.z * sum.t, P);
  }

  lemma SameProduct(k: Factors)
    ensures 4 * (k.e * k.f) * (4 * (k.g * k.h)) == 4 * (k.f * k.g) * (4 * (k.e * k.h))
  {
    assert k.e * k.f * (k.g * k.h) == k.f * k.g * (k.e * k.h);
  }

  // -- the sum is on the curve -------------------------------------------------

  // H^2 - E^2 == F^2 + d (T1 Z2 + T2 Z1)^2, from the curve equations of both points.
  lemma FirstIdentity(d: int, p: Point, q: Point)
    requires OnCurve(d, p) && OnCurve(d, q)
    ensures
      var k := FactorsOf(d, p, q);
      var w := p.t * q.z + q.t * p.z;
      Cong(k.h * k.h - k.e * k.e, k.f * k.f + d * (w * w), P)
  {
    hide Cong;
    var u1, u2 := p.y * p.y - p.x * p.x, q.y * q.y - q.x * q.x;
    var v1, v2 := p.z * p.z + d * (p.t * p.t), q.z * q.z + d * (q.t * q.t);
    Product(u1, v1, u2, v2, P);
    HyperbolicProduct(p.x, p.y, q.x, q.y);
    NormProduct(d, p.z, p.t, q.z, q.t);
  }

  lemma HyperbolicProduct(x1: int, y1: int, x2: int, y2: int)
    ensures
      var e, h := x1 * y2 + x2 * y1, y1 * y2 + x1 * x2;
      h * h - e * e == (y1 * y1 - x1 * x1) * (y2 * y2 - x2 * x2)
  {
  }

  lemma NormProduct(d: int, z1: int, t1: int, z2: int, t2: int)
    ensures
      var f, w := z1 * z2 - d * (t1 * t2), t1 * z2 + t2 * z1;
      (z1 * z1 + d * (t1 * t1)) * (z2 * z2 + d * (t2 * t2)) == f * f + d * (w * w)
  {
    var a, b, p, q := z1 * z2, t1 * t2, t1 * z2, t2 * z1;
    ProductOfSums(z1 * z1, d * (t1 * t1), z2 * z2, d * (t2 * t2));
    SquareOfProduct(z1, z2);
    OuterFactor(d, t2, z1);
    OuterFactor(d, t1, z2);
    SquareOfProduct(t1, t2);
    Shuffle(d, t1 * t1, d, t2 * t2);
    SquareOfProduct(d, b);
    Shuffle(t1, z2, t2, z1);
    SquareOfDifference(a, d * b);
    SquareOfSum(d, p, q);
    assert a * (d * b) == d * (p * q) by {
      assert p * q == b * (z2 * z1);
      Shuffle(1, a, d, b);
    }
  }

  lemma Shuffle(a: int, b: int, c: int, e: int)
    ensures a * b * (c * e) == a * c * (b * e)
  {
  }

  lemma OuterFactor(d: int, t: int, z: int)
    ensures z * z * (d * (t * t)) == d * (t * z * (t * z))
    ensures d * (t * t) * (z * z) == d * (t * z * (t * z))
  {
    SquareOfProduct(t, z);
  }

  lemma SquareOfSum(d: int, a: int, b: int)
    ensures d * ((a + b) * (a + b)) == d * (a * a) + d * (b * b) + 2 * (d * (a * b))
  {
    assert (a + b) * (a + b) == a * a + b * b + 2 * (a * b);
  }

  lemma SquareOfDifference(a: int, b: int)
    ensures (a - b) * (a - b) == a * a + b * b - 2 * (a * b)
  {
  }

  lemma ProductOfSums(a: int, b: int, c: int, e: int)
    ensures (a + b) * (c + e) == a * c + a * e + b * c + b * e
  {
  }

  // E (Y1 Y2 - X1 X2) == G (T1 Z2 + T2 Z1).
  lemma SecondIdentity(d: int, p: Point, q: Point)
    requires OnCurve(d, p) && OnCurve(d, q)
    ensures
      var k := FactorsOf(d, p, q);
      Cong(k.e * (p.y * q.y - p.x * q.x), k.g * (p.t * q.z + q.t * p.z), P)
  {
    hide Cong;
    var u1, u2 := p.y * p.y - p.x * p.x, q.y * q.y - q.x * q.x;
    var v1, v2 := p.z * p.z + d * (p.t * p.t), q.z * q.z + d * (q.t * q.t);
    Product(p.x * p.y, p.z * p.t, u2, v2, P);
    Product(q.x * q.y, q.z * q.t, u1, v1, P);
    Sum(p.x * p.y * u2, p.z * p.t * v2, q.x * q.y * u1, q.z * q.t * v1, P);
    CrossSum(p.x, p.y, q.x, q.y);
    CrossNorm(d, p.z, p.t, q.z, q.t);
  }

  lemma CrossSum(x1: int, y1: int, x2: int, y2: int)
    ensures (x1 * y2 + x2 * y1) * (y1 * y2 - x1 * x2)
         == x1 * y1 * (y2 * y2 - x2 * x2) + x2 * y2 * (y1 * y1 - x1 * x1)
  {
  }

  lemma CrossNorm(d: int, z1: int, t1: int, z2: int, t2: int)
    ensures z1 * t1 * (z2 * z2 + d * (t2 * t2)) + z2 * t2 * (z1 * z1 + d * (t1 * t1))
         == (z1 * z2 + d * (t1 * t2)) * (t1 * z2 + t2 * z1)
  {
    ProductOfSums(z1 * z2, d * (t1 * t2), t1 * z2, t2 * z1);
    CrossTerms(d, z1, t1, z2, t2);
    CrossTerms(d, z2, t2, z1, t1);
  }

  lemma CrossTerms(d: int, z1: int, t1: int, z2: int, t2: int)
    ensures z1 * t1 * (z2 * z2 + d * (t2 * t2)) == z1 * z2 * (t1 * z2) + d * (t1 * t2) * (t2 * z1)
  {
    assert z1 * t1 * (z2 * z2) == z1 * z2 * (t1 * z2);
    assert z1 * t1 * (d * (t2 * t2)) == d * (t1 * t2) * (t2 * z1) by {
      assert z1 * t1 * (t2 * t2) == t1 * t2 * (t2 * z1);
    }
  }

  // H^2 == (Y1 Y2 - X1 X2)^2 + 4 Z1 T1 Z2 T2.
  lemma ThirdIdentity(d: int, p: Point, q: Point)
    requires Extended(p) && Extended(q)
    ensures
      var k := FactorsOf(d, p, q);
      var v := p.y * q.y - p.x * q.x;
      Cong(k.h * k.h, v * v + 4 * (p.z * p.t * (q.z * q.t)), P)
  {
    hide Cong;
    var v := p.y * q.y - p.x * q.x;
    var h := FactorsOf(d, p, q).h;
    Product(p.x * p.y, p.z * p.t, q.x * q.y, q.z * q.t, P);
    Scaled(4, p.x * p.y * (q.x * q.y), p.z * p.t * (q.z * q.t), P);
    Same(v * v, P);
    Sum(v * v, v * v, 4 * (p.x * p.y * (q.x * q.y)), 4 * (p.z * p.t * (q.z * q.t)), P);
    assert h * h == v * v + 4 * (p.x * p.y * (q.x * q.y));
  }

  // With those, (G H)^2 - (E F)^2 == (F G)^2 + d (E H)^2.
  lemma CurveEquation(d: int, k: Factors, v: int, w: int, n: int)
    requires Cong(k.h * k.h - k.e * k.e, k.f * k.f + d * (w * w), P)
    requires Cong(k.e * v, k.g * w, P)
    requires Cong(k.h * k.h, v * v + 4 * n, P)
    requires k.g * k.g - k.f * k.f == 4 * (d * n)
    ensures Cong(k.g * k.h * (k.g * k.h) - k.e * k.f * (k.e * k.f),
                 k.f * k.g * (k.f * k.g) + d * (k.e * k.h * (k.e * k.h)), P)
  {
    var ee, ff, gg, hh := k.e * k.e, k.f * k.f, k.g * k.g, k.h * k.h;
    var j1 := Quotient(hh - ee, ff + d * (w * w), P);
    var j3 := Quotient(hh, v * v + 4 * n, P);
    Product(k.e * v, k.g * w, k.e * v, k.g * w, P);
    var j2 := Quotient(k.e * v * (k.e * v), k.g * w * (k.g * w), P);
    SquareOfProduct(k.e, v);
    SquareOfProduct(k.g, w);
    SquareOfProduct(k.g, k.h);
    SquareOfProduct(k.e, k.f);
    SquareOfProduct(k.f, k.g);
    SquareOfProduct(k.e, k.h);
    Combine(d, ee, ff, gg, hh, v * v, w * w, n, j1 * P, j2 * P, j3 * P);
    CommonFactor(d, gg, ee, j1, j2, j3, P);
    Because(gg * hh - ee * ff, ff * gg + d * (ee * hh), gg * j1 - d * j2 - d * (ee * j3), P);
  }

  lemma CommonFactor(d: int, gg: int, ee: int, j1: int, j2: int, j3: int, m: int)
    ensures gg * (j1 * m) - d * (j2 * m) - d * (ee * (j3 * m)) == (gg * j1 - d * j2 - d * (ee * j3)) * m
  {
    assert d * (ee * (j3 * m)) == d * (ee * j3) * m;
  }

  lemma SquareOfProduct(a: int, b: int)
    ensures a * b * (a * b) == a * a * (b * b)
  {
  }

  lemma Combine(d: int, ee: int, ff: int, gg: int, hh: int, vv: int, ww: int, n: int, r1: int, r2: int, r3: int)
    requires hh - ee == ff + d * ww + r1
    requires ee * vv == gg * ww + r2
    requires hh == vv + 4 * n + r3
    requires gg - ff == 4 * (d * n)
    ensures gg * hh - ee * ff - ff * gg - d * (ee * hh) == gg * r1 - d * r2 - d * (ee * r3)
  {
    assert gg * hh == gg * ee + gg * ff + gg * (d * ww) + gg * r1 by {
      assert gg * hh == gg * (ee + ff + d * ww + r1);
    }
    assert ee * hh == ee * vv + 4 * (ee * n) + ee * r3 by {
      assert ee * hh == ee * (vv + 4 * n + r3);
    }
    assert d * (ee * hh) == d * (gg * ww) + d * r2 + 4 * (d * (ee * n)) + d * (ee * r3);
    assert gg * ee - ee * ff == ee * (4 * (d * n));
    assert gg * (d * ww) == d * (gg * ww);
    assert ee * (4 * (d * n)) == 4 * (d * (ee * n));
  }

  // The sum of two points of the curve is a point of the curve.
  lemma SumIsOnCurve(d: int, p: Point, q: Point)
    requires OnCurve(d, p) && OnCurve(d, q)
    ensures OnCurve(d, Add(d, p, q))
  {
    hide Cong;
    var k, sum := FactorsOf(d, p, q), Add(d, p, q);
    var v, w, n := p.y * q.y - p.x * q.x, p.t * q.z + q.t * p.z, p.z * p.t * (q.z * q.t);
    SumIsExtended(d, p, q);
    FirstIdentity(d, p, q);
    SecondIdentity(d, p, q);
    ThirdIdentity(d, p, q);
    DifferenceOfSquares(d, p.z, p.t, q.z, q.t);
    CurveEquation(d, k, v, w, n);
    AddFactors(d, p, q);
    CurveEquationScaled(d, k, sum);
  }

  lemma DifferenceOfSquares(d: int, z1: int, t1: int, z2: int, t2: int)
    ensures
      var f, g := z1 * z2 - d * (t1 * t2), z1 * z2 + d * (t1 * t2);
      g * g - f * f == 4 * (d * (z1 * t1 * (z2 * t2)))
  {
  }

  lemma CurveEquationScaled(d: int, k: Factors, sum: Point)
    requires Cong(k.g * k.h * (k.g * k.h) - k.e * k.f * (k.e * k.f),
                  k.f * k.g * (k.f * k.g) + d * (k.e * k.h * (k.e * k.h)), P)
    requires Cong(sum.x, 4 * (k.e * k.f), P) && Cong(sum.y, 4 * (k.g * k.h), P)
    requires Cong(sum.z, 4 * (k.f * k.g), P) && Cong(sum.t, 4 * (k.e * k.h), P)
    ensures Cong(sum.y * sum.y - sum.x * sum.x, sum.z * sum.z + d * (sum.t * sum.t), P)
  {
    hide Cong;
    var x, y, z, t := k.e * k.f, k.g * k.h, k.f * k.g, k.e * k.h;
    SquareOfFour(sum.x, x);
    SquareOfFour(sum.y, y);
    SquareOfFour(sum.z, z);
    SquareOfFour(sum.t, t);
    SixteenTimes(d, sum.x * sum.x, sum.y * sum.y, sum.z * sum.z, sum.t * sum.t, x * x, y * y, z * z, t * t);
  }

  lemma SixteenTimes(d: int, xx: int, yy: int, zz: int, tt: int, x: int, y: int, z: int, t: int)
    requires Cong(y - x, z + d * t, P)
    requires Cong(xx, 16 * x, P) && Cong(yy, 16 * y, P) && Cong(zz, 16 * z, P) && Cong(tt, 16 * t, P)
    ensures Cong(yy - xx, zz + d * tt, P)
  {
    hide Cong;
    Difference(yy, 16 * y, xx, 16 * x, P);
    Scaled(d, tt, 16 * t, P);
    Sum(zz, 16 * z, d * tt, d * (16 * t), P);
    Scaled(16, y - x, z + d * t, P);
    assert d * (16 * t) == 16 * (d * t);
    Transitive(yy - xx, 16 * (y - x), 16 * (z + d * t), P);
    Symmetric(zz + d * tt, 16 * (z + d * t), P);
    Transitive(yy - xx, 16 * (z + d * t), zz + d * tt, P);
  }

  lemma SquareOfFour(a: int, b: int)
    requires Cong(a, 4 * b, P)
    ensures Cong(a * a, 16 * (b * b), P)
  {
    Product(a, 4 * b, a, 4 * b, P);
    assert 4 * b * (4 * b) == 16 * (b * b);
  }

  // The sum in affine coordinates, cross-multiplied: x3 = (x1 y2 + x2 y1) / (1 + d x1 x2 y1 y2)
  // and y3 = (y1 y2 + x1 x2) / (1 - d x1 x2 y1 y2), each x being X/Z and each y, Y/Z.
  lemma SumIsEdwardsSum(d: int, p: Point, q: Point)
    requires Extended(p) && Extended(q)
    ensures
      var sum, zz := Add(d, p, q), p.z * q.z;
      var product := p.x * q.x * (p.y * q.y);
      && Cong(sum.x * (zz * zz + d * product), sum.z * ((p.x * q.y + q.x * p.y) * zz), P)
      && Cong(sum.y * (zz * zz - d * product), sum.z * ((p.y * q.y + p.x * q.x) * zz), P)
  {
    hide Cong;
    var k, sum, zz := FactorsOf(d, p, q), Add(d, p, q), p.z * q.z;
    var product := p.x * q.x * (p.y * q.y);
    AddFactors(d, p, q);
    Denominators(d, p, q);
    Commuted(k.g, k.h);
    Commuted(k.f, k.g);
    hide Add, FactorsOf;
    CrossMultiplied(sum.x, k.e, k.f, sum.z, k.g, zz, zz * zz + d * product);
    CrossMultiplied(sum.y, k.h, k.g, sum.z, k.f, zz, zz * zz - d * product);
  }

  lemma Commuted(a: int, b: int)
    ensures 4 * (a * b) == 4 * (b * a)
  {
  }

  lemma Denominators(d: int, p: Point, q: Point)
    requires Extended(p) && Extended(q)
    ensures
      var k, zz := FactorsOf(d, p, q), p.z * q.z;
      var product := p.x * q.x * (p.y * q.y);
      Cong(zz * zz + d * product, zz * k.g, P) && Cong(zz * zz - d * product, zz * k.f, P)
  {
    hide Cong;
    var zz, tt := p.z * q.z, p.t * q.t;
    var product := p.x * q.x * (p.y * q.y);
    Product(p.x * p.y, p.z * p.t, q.x * q.y, q.z * q.t, P);
    Shuffle(p.x, p.y, q.x, q.y);
    Shuffle(p.z, p.t, q.z, q.t);
    Scaled(d, product, zz * tt, P);
    Same(zz * zz, P);
    Sum(zz * zz, zz * zz, d * product, d * (zz * tt), P);
    Difference(zz * zz, zz * zz, d * product, d * (zz * tt), P);
    assert zz * (zz + d * tt) == zz * zz + d * (zz * tt);
    assert zz * (zz - d * tt) == zz * zz - d * (zz * tt);
  }

  // From X == 4 a b, Z == 4 b c and D == zz c: X D == Z a zz.
  lemma CrossMultiplied(x: int, a: int, b: int, z: int, c: int, zz: int, den: int)
    requires Cong(x, 4 * (a * b), P) && Cong(z, 4 * (b * c), P) && Cong(den, zz * c, P)
    ensures Cong(x * den, z * (a * zz), P)
  {
    hide Cong;
    Product(x, 4 * (a * b), den, zz * c, P);
    Same(a * zz, P);
    Product(z, 4 * (b * c), a * zz, a * zz, P);
    assert 4 * (a * b) * (zz * c) == 4 * (b * c) * (a * zz) by {
      Shuffle(a, b, zz, c);
      Shuffle(b, c, a, zz);
    }
    Symmetric(z * (a * zz), 4 * (b * c) * (a * zz), P);
    Transitive(x * den, 4 * (a * b) * (zz * c), z * (a * zz), P);
  }

  // -- double and add ----------------------------------------------------------

  // What is taken of the group behind the points: addition is associative, with IDENTITY
  // as its neutral element; `stands` says which points of the curve stand for an element,
  // (0, 0, 0, 0) being one that does not, and `of` for which.
  datatype Group<!G(!new)> = Group(neutral: G, op: (G, G) -> G, stands: Point -> bool, of: Point -> G) {
    ghost predicate Element(d: int, p: Point) {
      OnCurve(d, p) && stands(p)
    }

    ghost predicate Laws(d: int) {
      && (forall a, b, c :: op(op(a, b), c) == op(a, op(b, c)))
      && (forall a :: op(neutral, a) == a && op(a, neutral) == a)
      && stands(IDENTITY) && of(IDENTITY) == neutral
      && (forall p, q {:trigger Add(d, p, q)} :: Element(d, p) && Element(d, q) ==>
            stands(Add(d, p, q)) && of(Add(d, p, q)) == op(of(p), of(q)))
    }

    // `n` times `g`.
    function Times(n: nat, g: G): (multiple: G) {
      if n == 0 then neutral else op(g, Times(n - 1, g))
    }

    lemma {:induction false} TimesSum(d: int, a: nat, b: nat, g: G)
      requires Laws(d)
      ensures Times(a + b, g) == op(Times(a, g), Times(b, g))
    {
      if a > 0 {
        TimesSum(d, a - 1, b, g);
      }
    }

    lemma {:induction false} TimesProduct(d: int, a: nat, b: nat, g: G)
      requires Laws(d)
      ensures 0 <= a * b && Times(a * b, g) == Times(a, Times(b, g))
    {
      if a > 0 {
        assert a * b == b + (a - 1) * b;
        TimesProduct(d, a - 1, b, g);
        TimesSum(d, b, (a - 1) * b, g);
      }
    }

    lemma TimesDoubled(d: int, n: nat, g: G)
      requires Laws(d)
      ensures Times(n, op(g, g)) == Times(2 * n, g)
    {
      hide Laws, Times;
      TimesProduct(d, n, 2, g);
      TimesTwo(d, g);
    }

    lemma TimesTwo(d: int, g: G)
      requires Laws(d)
      ensures Times(2, g) == op(g, g)
    {
      assert Times(1, g) == op(g, Times(0, g)) == g;
    }

    lemma {:induction false} TimesNeutral(d: int, n: nat)
      requires Laws(d)
      ensures Times(n, neutral) == neutral
    {
      if n > 0 {
        TimesNeutral(d, n - 1);
      }
    }

    lemma SumOfElements(d: int, p: Point, q: Point)
      requires Laws(d) && Element(d, p) && Element(d, q)
      ensures Element(d, Add(d, p, q)) && of(Add(d, p, q)) == op(of(p), of(q))
    {
      hide Add, OnCurve;
      SumIsOnCurve(d, p, q);
    }

    // One round of double-and-add, on elements.
    lemma Round(d: int, a: G, g: G, n: nat)
      requires Laws(d)
      ensures op(if n % 2 == 1 then op(a, g) else a, Times(n / 2, op(g, g))) == op(a, Times(n, g))
    {
      TimesDoubled(d, n / 2, g);
      hide Times;
      if n % 2 == 1 {
        assert n == 1 + 2 * (n / 2);
        TimesSum(d, 1, n - 1, g);
        TimesOne(d, g);
      }
    }

    lemma TimesNone(d: int, a: G, g: G)
      requires Laws(d)
      ensures op(a, Times(0, g)) == a
    {
    }

    lemma TimesOne(d: int, g: G)
      requires Laws(d)
      ensures Times(1, g) == g
    {
    }

    lemma NeutralLeft(d: int, g: G)
      requires Laws(d)
      ensures op(neutral, g) == g
    {
    }

    // Multiples of an element of order L depend only on the factor modulo L.
    lemma TimesModulo(d: int, n: nat, g: G)
      requires Laws(d) && Times(L, g) == neutral
      ensures Times(n % L, g) == Times(n, g)
    {
      hide Laws, Times;
      var q := n / L;
      assert n == q * L + n % L;
      TimesProduct(d, q, L, g);
      TimesNeutral(d, q);
      TimesSum(d, q * L, n % L, g);
      NeutralLeft(d, Times(n % L, g));
    }
  }

  // What the loop holds in `result` at its end, starting from these values.
  function DoubleAndAdd(d: int, scalar: nat, result: Point, point: Point): (r: Point) {
    if scalar == 0 then result
    else DoubleAndAdd(d, scalar / 2, if scalar % 2 == 1 then Add(d, result, point) else result, Add(d, point, point))
  }

  function Multiple(d: int, scalar: nat, point: Point): (r: Point) {
    DoubleAndAdd(d, scalar, IDENTITY, point)
  }

  // The point stays on the curve, and so keeps the coordinate law, through every round;
  // what it stands for is the multiple.
  lemma {:induction false} DoubleAndAddIs<G(!new)>(group: Group<G>, d: int, scalar: nat, result: Point, point: Point)
    requires group.Laws(d) && group.Element(d, result) && group.Element(d, point)
    ensures
      var r := DoubleAndAdd(d, scalar, result, point);
      && group.Element(d, r)
      && group.of(r) == group.op(group.of(result), group.Times(scalar, group.of(point)))
    decreases scalar
  {
    hide group.Element, group.Laws, group.Times, Add;
    var g := group.of(point);
    if scalar > 0 {
      group.SumOfElements(d, result, point);
      group.SumOfElements(d, point, point);
      DoubleAndAddIs(group, d, scalar / 2, if scalar % 2 == 1 then Add(d, result, point) else result, Add(d, point, point));
      group.Round(d, group.of(result), g, scalar);
    } else {
      group.TimesNone(d, group.of(result), g);
    }
  }

  lemma MultipleIs<G(!new)>(group: Group<G>, d: int, scalar: nat, point: Point)
    requires group.Laws(d) && group.Element(d, point)
    ensures group.Element(d, Multiple(d, scalar, point))
    ensures group.of(Multiple(d, scalar, point)) == group.Times(scalar, group.of(point))
  {
    IdentityOnCurve(d);
    DoubleAndAddIs(group, d, scalar, IDENTITY, point);
  }

  lemma IdentityOnCurve(d: int)
    ensures OnCurve(d, IDENTITY)
  {
    Same(0, P);
    Same(1, P);
  }

  method ScalarMult(d: int, scalar: nat, point: Point) returns (result: Point)
    ensures result == Multiple(d, scalar, point)
  {
    hide Add;
    result := IDENTITY;
    var doubled, rest := point, scalar;
    while rest > 0
      invariant DoubleAndAdd(d, rest, result, doubled) == Multiple(d, scalar, point)
    {
      if rest % 2 == 1 {
        result := Add(d, result, doubled);
      }
      doubled := Add(d, doubled, doubled);
      rest := rest / 2;
    }
  }

  // -- scalars and signatures --------------------------------------------------

  // The number a byte string stands for, least significant byte first.
  function FromBytes(b: seq<Byte>): (n: nat) {
    if b == [] then 0 else b[0] + 256 * FromBytes(b[1..])
  }

  function ToBytes(n: nat, len: nat): (b: seq<Byte>)
    ensures |b| == len
  {
    if len == 0 then [] else [n % 256] + ToBytes(n / 256, len - 1)
  }

  function Pow256(n: nat): (p: nat)
    ensures p > 0
  {
    if n == 0 then 1 else 256 * Pow256(n - 1)
  }

  lemma {:induction false} FromBytesToBytes(n: nat, len: nat)
    requires n < Pow256(len)
    ensures FromBytes(ToBytes(n, len)) == n
  {
    if len > 0 {
      FromBytesToBytes(n / 256, len - 1);
    }
  }

  lemma {:induction false} FromBytesConcat(a: seq<Byte>, b: seq<Byte>)
    ensures FromBytes(a + b) == FromBytes(a) + Pow256(|a|) * FromBytes(b)
  {
    if a == [] {
      assert a + b == b;
    } else {
      FromBytesConcat(a[1..], b);
      assert (a + b)[1..] == a[1..] + b;
      assert 256 * (Pow256(|a| - 1) * FromBytes(b)) == Pow256(|a|) * FromBytes(b);
    }
  }

  lemma {:induction false} FromBytesBound(b: seq<Byte>)
    ensures FromBytes(b) < Pow256(|b|)
  {
    if b != [] {
      FromBytesBound(b[1..]);
    }
  }

  datatype KeyError = BadScalarLength | BadPrivateKeyLength | BadPublicKeyLength

  // The bits cleared and set in a 32-byte scalar.
  function Clamp(raw: seq<Byte>): (s: seq<Byte>)
    requires |raw| == 32
  {
    var low: int, high: int := raw[0], raw[31];
    [low - low % 8] + raw[1..31] + [high % 64 + 64]
  }

  method ClampScalar(raw: seq<Byte>) returns (r: Result<seq<Byte>, KeyError>)
    ensures |raw| != 32 ==> r == Err(BadScalarLength)
    ensures |raw| == 32 ==> r == Ok(Clamp(raw))
  {
    if |raw| != 32 {
      return Err(BadScalarLength);
    }
    var s := new Byte[32](i requires 0 <= i < 32 => raw[i]);
    var low: int, high: int := s[0], s[31];
    s[0] := low - low % 8;
    s[31] := high % 64;
    s[31] := high % 64 + 64;
    assert s[..] == Clamp(raw);
    return Ok(s[..]);
  }

  // Clamping keeps the middle bits of the number, clears the lowest three and those above
  // bit 253, and sets bit 254.
  lemma ClampedScalar(raw: seq<Byte>)
    requires |raw| == 32
    ensures
      var half, n := 64 * Pow256(31), FromBytes(Clamp(raw));
      && n == half + (FromBytes(raw) % half) / 8 * 8
      && n % 8 == 0
      && half <= n < 2 * half
  {
    hide Pow256, FromBytes;
    var low: int, high: int := raw[0], raw[31];
    var middle := raw[1..31];
    Pow256Step(30);
    assert raw == [raw[0]] + middle + [raw[31]];
    Sandwich(raw[0], middle, raw[31]);
    Sandwich(low - low % 8, middle, high % 64 + 64);
    FromBytesBound(middle);
    ClampArithmetic(low, FromBytes(middle), high, Pow256(30));
  }

  lemma Pow256Step(n: nat)
    ensures Pow256(n + 1) == 256 * Pow256(n)
  {
  }

  lemma Sandwich(low: Byte, middle: seq<Byte>, high: Byte)
    ensures FromBytes([low] + middle + [high]) == low + 256 * FromBytes(middle) + 256 * Pow256(|middle|) * high
  {
    FromBytesConcat([low] + middle, [high]);
    FromBytesConcat([low], middle);
    assert Pow256(|[low] + middle|) == 256 * Pow256(|middle|);
    assert FromBytes([high]) == high && FromBytes([low]) == low && Pow256(1) == 256;
  }

  lemma ClampArithmetic(low: int, middle: int, high: int, p: int)
    requires 0 <= low < 256 && 0 <= middle < p && 0 <= high < 256
    ensures
      var half, n := 64 * (256 * p), low - low % 8 + 256 * middle + 256 * p * (high % 64 + 64);
      && n == half + (low + 256 * middle + 256 * p * high) % half / 8 * 8
      && n % 8 == 0
      && half <= n < 2 * half
  {
    var unit, rest := 256 * p, high % 64;
    var below, top, n := low + 256 * middle, unit * rest, low - low % 8 + 256 * middle + unit * (rest + 64);
    UpTo63(unit, rest);
    ClampReduces(below, high, unit);
    TopBits(p, rest);
    ClampLinear(low, middle, p, top, p * rest, (below + unit * high) % (64 * unit), n);
  }

  lemma TopBits(p: int, rest: int)
    ensures 256 * p * rest == 256 * (p * rest)
    ensures 256 * p * (rest + 64) == 256 * p * rest + 64 * (256 * p)
  {
  }

  // The same with the products named, so that all is linear.
  lemma ClampLinear(low: int, middle: int, p: int, top: int, u: int, reduced: int, n: int)
    requires 0 <= low < 256 && 0 <= middle < p
    requires top == 256 * u && 0 <= top <= 63 * (256 * p)
    requires reduced == low + 256 * middle + top
    requires n == low - low % 8 + 256 * middle + top + 64 * (256 * p)
    ensures n == 64 * (256 * p) + reduced / 8 * 8 && n % 8 == 0
    ensures 64 * (256 * p) <= n < 2 * (64 * (256 * p))
  {
    DropLow(low, 32 * middle + 32 * u);
  }

  lemma ClampReduces(below: int, high: int, unit: int)
    requires 0 <= below < unit && 0 <= high
    ensures (below + unit * high) % (64 * unit) == below + unit * (high % 64)
  {
    var rest, q := high % 64, high / 64;
    Distribute(unit, rest, q);
    UpTo63(unit, rest);
    ModuloShift(below + unit * rest, 64 * unit, q);
  }

  lemma UpTo63(unit: int, rest: int)
    requires 0 <= unit && 0 <= rest <= 63
    ensures 0 <= unit * rest <= 63 * unit
  {
  }

  lemma Distribute(u: int, a: int, b: int)
    ensures u * (a + 64 * b) == u * a + 64 * u * b
  {
  }

  lemma DropLow(low: int, more: int)
    requires 0 <= low
    ensures (low + 8 * more) / 8 * 8 == low - low % 8 + 8 * more
  {
  }

  lemma ModuloShift(a: int, m: int, k: int)
    requires 0 <= a < m
    ensures (a + m * k) % m == a
  {
    var x := a + m * k;
    var q, r := x / m, x % m;
    assert x == q * m + r;
    assert (q - k) * m == a - r;
    OnlyZero(q - k, m);
  }

  lemma OnlyZero(n: int, m: int)
    requires 0 < m && -m < n * m < m
    ensures n == 0
  {
    assert -n * m == -(n * m);
    if n > 0 {
      Positive(n, m);
    } else if n < 0 {
      Positive(-n, m);
    }
  }

  lemma {:induction false} Positive(n: int, m: int)
    requires 0 < n && 0 < m
    ensures n * m >= m
  {
    if n > 1 {
      Positive(n - 1, m);
      assert n * m == (n - 1) * m + m;
    }
  }

  // What signing draws on: the curve constant, the base point, the field inverse used to
  // encode points, and the hash.
  datatype Scheme = Scheme(d: int, base: Point, inverse: int -> int, sha512: seq<Byte> -> seq<Byte>) {
    // y, with the lowest bit of x in the top bit.
    function Encode(p: Point): (b: seq<Byte>)
      ensures |b| == 32
    {
      var x, y := p.x * inverse(p.z) % P, p.y * inverse(p.z) % P;
      ToBytes(y + x % 2 * TOP_BIT, 32)
    }

    // The scalar of an expanded key.
    function Scalar(expanded: seq<Byte>): (a: nat)
      requires |expanded| == 64
    {
      FromBytes(Clamp(expanded[..32]))
    }

    function DerivePublicKey(expanded: seq<Byte>): (r: Result<seq<Byte>, KeyError>) {
      if |expanded| != 64 then Err(BadPrivateKeyLength)
      else Ok(Encode(Multiple(d, Scalar(expanded), base)))
    }

    function Nonce(expanded: seq<Byte>, message: seq<Byte>): (r: nat)
      requires |expanded| == 64
    {
      FromBytes(sha512(expanded[32..] + message)) % L
    }

    function Challenge(commitment: seq<Byte>, publicKey: seq<Byte>, message: seq<Byte>): (k: nat) {
      FromBytes(sha512(commitment + publicKey + message)) % L
    }

    function Sign(expanded: seq<Byte>, publicKey: seq<Byte>, message: seq<Byte>): (r: Result<seq<Byte>, KeyError>) {
      if |expanded| != 64 then Err(BadPrivateKeyLength)
      else if |publicKey| != 32 then Err(BadPublicKeyLength)
      else
        var a, nonce := Scalar(expanded), Nonce(expanded, message);
        var commitment := Encode(Multiple(d, nonce, base));
        var s := (nonce + Challenge(commitment, publicKey, message) * a) % L;
        Ok(commitment + ToBytes(s, 32))
    }

    // What a verifier checks (section 5.1.7): the signature is 64 bytes, its second half
    // stands for an S below L, and [S]B = R + [k]A for the R its first half encodes and the
    // A that the public key encodes.
    ghost predicate Verifies<G(!new)>(group: Group<G>, publicKey: seq<Byte>, message: seq<Byte>, signature: seq<Byte>,
                                      r: Point, a: Point) {
      && |signature| == 64
      && signature[..32] == Encode(r) && publicKey == Encode(a)
      && group.Element(d, r) && group.Element(d, a)
      && var s, k := FromBytes(signature[32..]), FromBytes(sha512(signature[..32] + publicKey + message)) % L;
         && s < L
         && group.Times(s, group.of(base)) == group.op(group.of(r), group.Times(k, group.of(a)))
    }

    // Every signature made under its own public key verifies, in any group the points may
    // stand for where the base point has order L. R is the multiple by the hash of the second
    // half of the key and the message, A by the clamped first half.
    lemma SignatureVerifies<G(!new)>(group: Group<G>, expanded: seq<Byte>, message: seq<Byte>)
      requires group.Laws(d) && group.Element(d, base) && group.Times(L, group.of(base)) == group.neutral
      requires |expanded| == 64
      ensures DerivePublicKey(expanded).Ok? && Sign(expanded, DerivePublicKey(expanded).value, message).Ok?
      ensures Verifies(group, DerivePublicKey(expanded).value, message,
                       Sign(expanded, DerivePublicKey(expanded).value, message).value,
                       Multiple(d, FromBytes(sha512(expanded[32..] + message)) % L, base),
                       Multiple(d, FromBytes(Clamp(expanded[..32])), base))
    {
      hide Encode, group.Element, Multiple, group.Laws, group.Times, FromBytes, ToBytes, Pow256, Clamp;
      var publicKey := DerivePublicKey(expanded).value;
      var a, nonce := Scalar(expanded), Nonce(expanded, message);
      var commitment := Encode(Multiple(d, nonce, base));
      var k := Challenge(commitment, publicKey, message);
      var s := (nonce + k * a) % L;
      var signature := Sign(expanded, publicKey, message).value;
      assert signature[..32] == commitment && signature[32..] == ToBytes(s, 32);
      ScalarFits();
      FromBytesToBytes(s, 32);
      MultipleIs(group, d, nonce, base);
      MultipleIs(group, d, a, base);
      SigningEquation(group, nonce, k, a);
    }

    // Keys of any other length are refused.
    lemma BadKeysRefused(expanded: seq<Byte>, publicKey: seq<Byte>, message: seq<Byte>)
      ensures DerivePublicKey(expanded) == Err(BadPrivateKeyLength) <==> |expanded| != 64
      ensures Sign(expanded, publicKey, message)
           == if |expanded| != 64 then Err(BadPrivateKeyLength)
              else if |publicKey| != 32 then Err(BadPublicKeyLength)
              else Ok(Sign(expanded, publicKey, message).value)
    {
    }

    // [(r + k a) mod L]B = [r]B + [k][a]B.
    lemma SigningEquation<G(!new)>(group: Group<G>, r: nat, k: nat, a: nat)
      requires group.Laws(d) && group.Times(L, group.of(base)) == group.neutral
      ensures 0 <= k * a
      ensures
        var b := group.of(base);
        group.Times((r + k * a) % L, b) == group.op(group.Times(r, b), group.Times(k, group.Times(a, b)))
    {
      hide group.Laws, group.Times;
      var b := group.of(base);
      group.TimesProduct(d, k, a, b);
      group.TimesSum(d, r, k * a, b);
      group.TimesModulo(d, r + k * a, b);
    }

    // Where the field inverse is one, the two numbers encoded are the affine coordinates:
    // times Z they are X and Y.
    lemma EncodedAffine(p: Point)
      requires Cong(inverse(p.z) * p.z, 1, P)
      ensures Cong((p.x * inverse(p.z) % P) * p.z, p.x, P)
      ensures Cong((p.y * inverse(p.z) % P) * p.z, p.y, P)
    {
      AffineTimesZ(p.x, inverse(p.z), p.z);
      AffineTimesZ(p.y, inverse(p.z), p.z);
    }

    // An encoded point gives back its affine y and the parity of its x.
    lemma EncodedFields(p: Point)
      ensures
        var x, y, n := p.x * inverse(p.z) % P, p.y * inverse(p.z) % P, FromBytes(Encode(p));
        n % TOP_BIT == y
        && n / TOP_BIT == x % 2
    {
      hide Pow256, FromBytes, ToBytes;
      ScalarFits();
      var x, y := p.x * inverse(p.z) % P, p.y * inverse(p.z) % P;
      TopBit(y, x % 2);
      FromBytesToBytes(y + x % 2 * TOP_BIT, 32);
    }
  }

  lemma AffineTimesZ(a: int, inv: int, z: int)
    requires Cong(inv * z, 1, P)
    ensures Cong((a * inv % P) * z, a, P)
  {
    hide Cong;
    Reduced(a * inv, P);
    Same(z, P);
    Product(a * inv % P, a * inv, z, z, P);
    Scaled(a, inv * z, 1, P);
    assert a * inv * z == a * (inv * z);
    Transitive((a * inv % P) * z, a * (inv * z), a * 1, P);
  }

  lemma TopBit(y: int, bit: int)
    requires 0 <= y < TOP_BIT && 0 <= bit < 2
    ensures (y + bit * TOP_BIT) % TOP_BIT == y && (y + bit * TOP_BIT) / TOP_BIT == bit
    ensures 0 <= y + bit * TOP_BIT < 2 * TOP_BIT
  {
  }

  lemma ScalarFits()
    ensures Pow256(32) == 0x1_0000000000000000000000000000000000000000000000000000000000000000
  {
    hide Pow256;
    assert Pow256(4) == 0x1_0000_0000 by {
      FourBytes();
    }
    Pow256Sum(4, 4);
    Pow256Sum(8, 8);
    Pow256Sum(16, 16);
  }

  lemma FourBytes()
    ensures Pow256(4) == 0x1_0000_0000
  {
    assert Pow256(2) == 256 * Pow256(1) == 0x1_0000;
  }

  lemma {:induction false} Pow256Sum(a: nat, b: nat)
    ensures Pow256(a + b) == Pow256(a) * Pow256(b)
  {
    if a > 0 {
      Pow256Sum(a - 1, b);
      assert 256 * (Pow256(a - 1) * Pow256(b)) == Pow256(a) * Pow256(b);
    }
  }
}
