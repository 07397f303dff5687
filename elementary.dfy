/** The elementary functions that the signals call through NumPy and Polars:
    the natural logarithm, the exponential and the square root.  Dafny has no
    closed form for them, so the model takes them as a parameter `m` and
    assumes only the laws collected in `Lawful`. */
module Elementary {

  datatype Maths = Maths(ln: real -> real, exp: real -> real, sqrt: real -> real)

  /** The laws of ln, exp and sqrt that the proofs rely on. */
  ghost predicate Lawful(m: Maths)
  {
    && (forall x :: m.sqrt(x) >= 0.0)
    && (forall x :: x >= 0.0 ==> m.sqrt(x) * m.sqrt(x) == x)
    && (forall x :: m.exp(x) > 0.0)
    && (forall x, y :: x < y ==> m.exp(x) < m.exp(y))
    && m.exp(0.0) == 1.0
    && (forall x, y :: 0.0 < x < y ==> m.ln(x) < m.ln(y))
    && m.ln(1.0) == 0.0
  }

  /** Two further laws of the natural logarithm, needed only for the upper bound of an
      entropy: it turns products into sums, and it lies below its tangent at 1. */
  ghost predicate LogLaws(m: Maths)
  {
    && (forall x, y :: 0.0 < x && 0.0 < y ==> m.ln(Product(x, y)) == m.ln(x) + m.ln(y))
    && (forall x :: 0.0 < x ==> m.ln(x) <= x - 1.0)
  }

  /** x * y under a name, so that the product law is used only where a proof asks for it. */
  function Product(x: real, y: real): real
  {
    x * y
  }

  /** ln(1/2) = -ln 2. */
  lemma LnOfHalf(m: Maths)
    requires Lawful(m) && LogLaws(m)
    ensures m.ln(0.5) == -m.ln(2.0)
  {
    LnProduct(m, 2.0, 0.5);
  }

  /** One term of Gibbs' inequality against the fair coin: -q ln q <= q ln 2 + 1/2 - q. */
  lemma GibbsTerm(m: Maths, q: real)
    requires Lawful(m) && LogLaws(m) && 0.0 < q
    ensures -(q * m.ln(q)) <= q * m.ln(2.0) + 0.5 - q
  {
    var y := Reciprocal(2.0 * q);
    LnReciprocal(m, 2.0 * q);
    LnProduct(m, 2.0, q);
    assert m.ln(y) <= y - 1.0;
    TangentScaled(q, m.ln(q), m.ln(2.0), m.ln(y));
  }

  function Reciprocal(x: real): (r: real)
    requires x > 0.0
    ensures r > 0.0 && x * r == 1.0
  {
    1.0 / x
  }

  /** ln(1/x) = -ln x. */
  lemma LnReciprocal(m: Maths, x: real)
    requires Lawful(m) && LogLaws(m) && 0.0 < x
    ensures m.ln(Reciprocal(x)) == -m.ln(x)
  {
    LnProduct(m, x, Reciprocal(x));
  }

  lemma LnProduct(m: Maths, x: real, y: real)
    requires LogLaws(m) && 0.0 < x && 0.0 < y
    ensures m.ln(x * y) == m.ln(x) + m.ln(y)
  {
    assert m.ln(Product(x, y)) == m.ln(x) + m.ln(y);
  }

  /** The tangent bound ln(1/(2q)) <= 1/(2q) - 1, multiplied through by q. */
  lemma TangentScaled(q: real, lq: real, l2: real, ly: real)
    requires 0.0 < q && ly == -(l2 + lq) && ly <= Reciprocal(2.0 * q) - 1.0
    ensures -(q * lq) <= q * l2 + 0.5 - q
  {
    var y := Reciprocal(2.0 * q);
    assert q * y == 0.5;
    var gap := y - 1.0 - ly;
    assert q * gap == 0.5 - q + q * l2 + q * lq;
    if gap > 0.0 {
      PositiveProduct(q, gap);
    }
  }

  lemma ExpAtLeastOne(m: Maths, x: real)
    requires Lawful(m) && x >= 0.0
    ensures m.exp(x) >= 1.0
  {
    if x > 0.0 {
      assert m.exp(0.0) < m.exp(x);
    }
  }

  lemma ExpAtMostOne(m: Maths, x: real)
    requires Lawful(m) && x <= 0.0
    ensures 0.0 < m.exp(x) <= 1.0
  {
    if x < 0.0 {
      assert m.exp(x) < m.exp(0.0);
    }
  }

  lemma ExpMonotone(m: Maths, x: real, y: real)
    requires Lawful(m) && x <= y
    ensures m.exp(x) <= m.exp(y)
  {
    if x < y {
      assert m.exp(x) < m.exp(y);
    }
  }

  lemma LnBelowOne(m: Maths, x: real)
    requires Lawful(m) && 0.0 < x < 1.0
    ensures m.ln(x) < 0.0
  {
    assert m.ln(x) < m.ln(1.0);
  }

  lemma LnAtMostZero(m: Maths, x: real)
    requires Lawful(m) && 0.0 < x <= 1.0
    ensures m.ln(x) <= 0.0
  {
    if x < 1.0 {
      LnBelowOne(m, x);
    }
  }

  lemma LnTwoPositive(m: Maths)
    requires Lawful(m)
    ensures m.ln(2.0) > 0.0
  {
    assert m.ln(1.0) < m.ln(2.0);
  }

  lemma SqrtOfZero(m: Maths)
    requires Lawful(m)
    ensures m.sqrt(0.0) == 0.0
  {
    SqrtUnique(m, 0.0, 0.0);
  }

  /** sqrt is the non-negative square root, so it is the only candidate `r` with r*r == x. */
  lemma {:induction false} SqrtUnique(m: Maths, x: real, r: real)
    requires Lawful(m) && x >= 0.0 && r >= 0.0 && r * r == x
    ensures m.sqrt(x) == r
  {
    var s := m.sqrt(x);
    assert s >= 0.0 && s * s == x;
    SquaresEqual(s, r);
  }

  lemma SquaresEqual(s: real, r: real)
    requires s >= 0.0 && r >= 0.0 && s * s == r * r
    ensures s == r
  {
    assert (s - r) * (s + r) == s * s - r * r;
    if s > r {
      PositiveProduct(s - r, s + r);
    } else if s < r {
      PositiveProduct(r - s, s + r);
    }
  }

  /** sqrt is monotone on the non-negative reals, strictly so. */
  lemma {:induction false} SqrtMonotone(m: Maths, a: real, b: real)
    requires Lawful(m) && 0.0 <= a <= b
    ensures m.sqrt(a) <= m.sqrt(b)
    ensures a < b ==> m.sqrt(a) < m.sqrt(b)
  {
    var sa, sb := m.sqrt(a), m.sqrt(b);
    assert sa >= 0.0 && sb >= 0.0 && sa * sa == a && sb * sb == b;
    assert (sa - sb) * (sa + sb) == a - b;
    if sa + sb > 0.0 {
      SignOfProduct(sa - sb, sa + sb);
    }
  }

  /** With a positive factor y, x * y has the sign of x. */
  lemma SignOfProduct(x: real, y: real)
    requires y > 0.0
    ensures x * y > 0.0 <==> x > 0.0
    ensures x * y == 0.0 <==> x == 0.0
  {
    if x > 0.0 {
      PositiveProduct(x, y);
    } else if x < 0.0 {
      PositiveProduct(-x, y);
    }
  }

  lemma PositiveProduct(x: real, y: real)
    requires x > 0.0 && y > 0.0
    ensures x * y > 0.0
  {
  }
}
