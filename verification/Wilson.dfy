/** audit/regime_surface.py:19-26: the Wilson score interval, in real arithmetic. */
module Wilson {
  import opened Options

  datatype Bounds = Bounds(lo: real, hi: real)

  predicate Inside(b: Bounds, q: real) { b.lo <= q <= b.hi }

  function FourSquares(n: real): (k: real)
    requires n > 0.0
    ensures k > 0.0
  {
    var k := 4.0 * n * n;
    ProductPositive(4.0 * n, n, k);
    k
  }

  /** The product named, so that its sign is known and not only its factors'. */
  lemma ProductPositive(x: real, y: real, v: real)
    requires x > 0.0 && y > 0.0 && v == x * y
    ensures v > 0.0
  {}

  function Radicand(p: real, n: real, z: real): real
    requires n > 0.0
  {
    p * (1.0 - p) / n + z * z / FourSquares(n)
  }

  /** What `math.sqrt` returns, exactly. */
  predicate IsRoot(root: real, x: real) { root >= 0.0 && root * root == x }

  function Centre(p: real, n: real, z: real): real
    requires n > 0.0
  {
    NonNegative(z * z, n);
    (p + z * z / (2.0 * n)) / (1.0 + z * z / n)
  }

  function Half(n: real, z: real, root: real): real
    requires n > 0.0
  {
    NonNegative(z * z, n);
    z * root / (1.0 + z * z / n)
  }

  function Max(a: real, b: real): real { if b > a then b else a }
  function Min(a: real, b: real): real { if b < a then b else a }

  /** wilson_interval; `root` is the square root it takes. */
  function Interval(positive: int, total: int, z: real, root: real): Option<Bounds> {
    if total <= 0 then None
    else
      var n, p := total as real, positive as real / total as real;
      Some(Bounds(Max(0.0, Centre(p, n, z) - Half(n, z, root)), Min(1.0, Centre(p, n, z) + Half(n, z, root))))
  }

  lemma NonNegative(x: real, n: real)
    requires n > 0.0
    ensures x >= 0.0 ==> x / n >= 0.0
  {}

  lemma Positive(x: real, y: real)
    requires x > 0.0 && y > 0.0
    ensures x * y > 0.0
  {}

  lemma NonNegativeProduct(x: real, y: real)
    requires x >= 0.0 && y >= 0.0
    ensures x * y >= 0.0
  {}

  lemma Cancel(x: real, y: real, k: real)
    requires k > 0.0 && x * k == y * k
    ensures x == y
  {
    if x > y {
      Positive(x - y, k);
    } else if y > x {
      Positive(y - x, k);
    }
  }

  // -------------------- the score test it inverts --------------------

  /** q is not rejected: p is within z standard errors of q, squared. */
  predicate Accepted(p: real, a: real, q: real) { Square(p - q) <= a * q * (1.0 - q) }

  function Square(x: real): real { x * x }

  /** The quadratic behind the test, completed to a square. */
  lemma Completed(p: real, a: real, q: real, h: real)
    requires h * h == a * p * (1.0 - p) + a * a / 4.0
    ensures var y := (1.0 + a) * q - (p + a / 2.0);
      y * y - h * h == (1.0 + a) * ((p - q) * (p - q) - a * q * (1.0 - q))
  {
    var d, c := 1.0 + a, p + a / 2.0;
    var y := d * q - c;
    assert y * y == d * d * (q * q) - 2.0 * d * (q * c) + c * c;
    assert c * c - h * h == d * (p * p);
    assert (p - q) * (p - q) - a * q * (1.0 - q) == d * (q * q) - 2.0 * (q * c) + p * p;
    Distribute(d, d * (q * q), 2.0 * (q * c), p * p);
  }

  lemma Distribute(d: real, x: real, y: real, w: real)
    ensures d * (x - y + w) == d * x - d * y + d * w
  {}

  lemma DifferenceOfSquares(x: real, y: real)
    ensures (x - y) * (x + y) == x * x - y * y
  {}

  lemma SquareLe(y: real, h: real)
    requires h >= 0.0
    ensures y * y <= h * h <==> -h <= y <= h
  {
    var w := -y;
    assert w * w == y * y;
    if y > h {
      DifferenceOfSquares(y, h);
      Positive(y - h, y + h);
    } else if w > h {
      DifferenceOfSquares(w, h);
      Positive(w - h, w + h);
    } else {
      DifferenceOfSquares(h, y);
      NonNegativeProduct(h - y, h + y);
    }
  }

  lemma ScaledSign(d: real, x: real)
    requires d > 0.0
    ensures d * x <= 0.0 <==> x <= 0.0
  {
    if x > 0.0 {
      assert d * x > 0.0;
    } else {
      assert d * (-x) >= 0.0;
    }
  }

  /** Accepted is the same as lying within h of the scaled centre. */
  lemma AcceptedIff(p: real, a: real, q: real, h: real)
    requires a >= 0.0 && h >= 0.0 && h * h == a * p * (1.0 - p) + a * a / 4.0
    ensures Accepted(p, a, q) <==> -h <= (1.0 + a) * q - (p + a / 2.0) <= h
  {
    Completed(p, a, q, h);
    SquareLe((1.0 + a) * q - (p + a / 2.0), h);
    ScaledSign(1.0 + a, (p - q) * (p - q) - a * q * (1.0 - q));
  }

  lemma DividedBound(d: real, c: real, h: real, q: real)
    requires d > 0.0
    ensures c / d - h / d <= q <= c / d + h / d <==> -h <= d * q - c <= h
  {
    var u, w := c / d, h / d;
    assert d * u == c && d * w == h;
    ScaledSign(d, u - w - q);
    ScaledSign(d, q - u - w);
    assert d * (u - w - q) == c - h - d * q;
    assert d * (q - u - w) == d * q - c - h;
  }

  lemma FourthPart(x: real, n: real)
    requires n > 0.0
    ensures x / FourSquares(n) == x / n / n / 4.0
  {
    var k, a, b := FourSquares(n), x / n, x / n / n;
    assert b * n == a && a * n == x;
    assert b / 4.0 * k == b * n * n;
    Cancel(x / k, b / 4.0, k);
  }

  lemma RootScaled(p: real, n: real, z: real, root: real)
    requires n > 0.0 && IsRoot(root, Radicand(p, n, z))
    ensures var a := z * z / n; (z * root) * (z * root) == a * p * (1.0 - p) + a * a / 4.0
  {
    var a, v := z * z / n, p * (1.0 - p);
    assert (z * root) * (z * root) == (z * z) * (root * root);
    assert (z * z) * (v / n) == a * v by {
      assert (z * z) * (v / n) == (z * z) * v / n;
      assert a * v == (z * z) * v / n;
    }
    FourthPart(z * z, n);
    assert (z * z) * (a / n / 4.0) == a * a / 4.0;
    assert (z * z) * (v / n + a / n / 4.0) == (z * z) * (v / n) + (z * z) * (a / n / 4.0);
  }

  lemma CentreScaled(p: real, n: real, z: real, a: real)
    requires n > 0.0 && a == z * z / n >= 0.0
    ensures Centre(p, n, z) == (p + a / 2.0) / (1.0 + a)
  {
    assert z * z / (2.0 * n) == a / 2.0;
  }

  /** Before clamping, the interval is exactly the set of accepted proportions. */
  lemma UnclampedIsAccepted(p: real, n: real, z: real, root: real, a: real, q: real)
    requires n > 0.0 && z >= 0.0 && IsRoot(root, Radicand(p, n, z)) && a == z * z / n >= 0.0
    ensures Centre(p, n, z) - Half(n, z, root) <= q <= Centre(p, n, z) + Half(n, z, root) <==> Accepted(p, a, q)
  {
    var h := z * root;
    RootScaled(p, n, z, root);
    NonNegativeProduct(z, root);
    AcceptedIff(p, a, q, h);
    CentreScaled(p, n, z, a);
    DividedBound(1.0 + a, p + a / 2.0, h, q);
  }

  lemma VarianceSign(a: real, q: real)
    requires a >= 0.0
    ensures 0.0 <= q <= 1.0 ==> a * q * (1.0 - q) >= 0.0
    ensures q < 0.0 || q > 1.0 ==> a * q * (1.0 - q) <= 0.0
  {
    var u := a * q;
    if q < 0.0 {
      NonNegativeProduct(a, -q);
      NonNegativeProduct(-u, 1.0 - q);
      assert (-u) * (1.0 - q) == -(u * (1.0 - q));
    } else {
      NonNegativeProduct(a, q);
      if q > 1.0 {
        NonNegativeProduct(u, q - 1.0);
        assert u * (q - 1.0) == -(u * (1.0 - q));
      } else {
        NonNegativeProduct(u, 1.0 - q);
      }
    }
  }

  lemma SquarePositive(x: real)
    requires x != 0.0
    ensures Square(x) > 0.0
  {
    if x > 0.0 {
      ProductPositive(x, x, Square(x));
    } else {
      ProductPositive(-x, -x, Square(x));
    }
  }

  lemma ObservedIsAccepted(p: real, a: real)
    requires 0.0 <= p <= 1.0 && a >= 0.0
    ensures Accepted(p, a, p)
  {
    VarianceSign(a, p);
    assert Square(p - p) == 0.0;
  }

  lemma OutsideIsRejected(p: real, a: real, q: real)
    requires 0.0 <= p <= 1.0 && a >= 0.0 && (q < 0.0 || q > 1.0)
    ensures !Accepted(p, a, q)
  {
    SquarePositive(p - q);
    VarianceSign(a, q);
  }

  lemma HalfNonNegative(n: real, z: real, root: real)
    requires n > 0.0 && z >= 0.0 && root >= 0.0
    ensures Half(n, z, root) >= 0.0
  {
    NonNegative(z * z, n);
    assert z * root >= 0.0;
    NonNegative(z * root, 1.0 + z * z / n);
  }

  lemma ProportionInUnit(positive: int, total: int)
    requires 0 <= positive <= total && total > 0
    ensures 0.0 <= positive as real / total as real <= 1.0
  {}

  /** The interval is inside [0, 1], holds the observed proportion, needs neither clamp,
      and consists of exactly the proportions the score test accepts. */
  lemma WilsonIsScoreInterval(positive: int, total: int, z: real, root: real)
    requires 0 <= positive <= total && total > 0 && z >= 0.0
    requires IsRoot(root, Radicand(positive as real / total as real, total as real, z))
    ensures var p, n, b := positive as real / total as real, total as real, Interval(positive, total, z, root).value;
      && 0.0 <= b.lo <= p <= b.hi <= 1.0
      && b == Bounds(Centre(p, n, z) - Half(n, z, root), Centre(p, n, z) + Half(n, z, root))
      && forall q :: Inside(b, q) <==> Accepted(p, z * z / n, q)
  {
    var p, n := positive as real / total as real, total as real;
    var lo, hi := Centre(p, n, z) - Half(n, z, root), Centre(p, n, z) + Half(n, z, root);
    var a := z * z / n;
    ProportionInUnit(positive, total);
    NonNegative(z * z, n);
    HalfNonNegative(n, z, root);
    forall q: real ensures Inside(Bounds(lo, hi), q) <==> Accepted(p, a, q) {
      UnclampedIsAccepted(p, n, z, root, a, q);
    }
    if lo < 0.0 {
      OutsideIsRejected(p, a, lo);
    }
    if hi > 1.0 {
      OutsideIsRejected(p, a, hi);
    }
    ObservedIsAccepted(p, a);
    assert Inside(Bounds(lo, hi), lo) && Inside(Bounds(lo, hi), hi) && Accepted(p, a, p);
  }

  lemma QuotientPositive(x: real, n: real)
    requires x > 0.0 && n > 0.0
    ensures x / n > 0.0
  {}

  lemma RootPositive(p: real, n: real, z: real, root: real)
    requires 0.0 <= p <= 1.0 && n > 0.0 && z != 0.0 && IsRoot(root, Radicand(p, n, z))
    ensures root > 0.0
  {
    NonNegativeProduct(p, 1.0 - p);
    NonNegative(p * (1.0 - p), n);
    SquarePositive(z);
    QuotientPositive(Square(z), FourSquares(n));
    assert root * root > 0.0;
  }

  lemma HalfNegative(n: real, z: real, root: real)
    requires n > 0.0 && z < 0.0 && root > 0.0
    ensures Half(n, z, root) < 0.0
  {
    NonNegative(z * z, n);
    var d, x := 1.0 + z * z / n, (-z) * root;
    ProductPositive(-z, root, x);
    QuotientPositive(x, d);
    assert z * root == -x;
    assert (-x) / d == -(x / d);
  }

  /** The bounds come out in order exactly for a z that is not negative. */
  lemma OrderedIffZNonNegative(positive: int, total: int, z: real, root: real)
    requires 0 <= positive <= total && total > 0
    requires IsRoot(root, Radicand(positive as real / total as real, total as real, z))
    ensures var b := Interval(positive, total, z, root).value; b.lo <= b.hi <==> z >= 0.0
  {
    var p, n := positive as real / total as real, total as real;
    if z >= 0.0 {
      WilsonIsScoreInterval(positive, total, z, root);
    } else {
      ProportionInUnit(positive, total);
      RootPositive(p, n, z, root);
      HalfNegative(n, z, root);
    }
  }
}
