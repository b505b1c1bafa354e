/**
 * The Bézier curve of bp2d (src/geometry/bezier.ts): a list of control
 * points and `getPolynomials`, which turns them into the power-basis
 * polynomials x(t) and y(t) of the curve.
 *
 * For degree n = points - 1, coefficient j is
 *   n (n - 1) ... (n - j + 1) * sum over i <= j of sign(i, j) * P_i / (i! (j - i)!),
 * where sign(i, j) should be (-1)^(i + j). The source computes the sign as
 * `i + j % 2 == 0`, which JavaScript reads as `i + (j % 2) == 0`: +1 only for
 * i = 0 and even j. `AsWrittenSign` is that expression and `Sign` the
 * intended one; the loop is written once (`Bezier.Expand`) and receives
 * the sign rule, `GetPolynomials` passes the one in the source and
 * `GetPolynomialsCorrected` the intended one.
 */
module Beziers {
  import opened Planar
  import opened Vectors
  import opened Vertices
  import opened Factorials
  import opened Polynomials

  /** Line 22 as JavaScript parses it: `i + (j % 2) == 0 ? 1 : -1`. */
  function AsWrittenSign(i: nat, j: nat): real
  {
    if i + j % 2 == 0 then 1.0 else -1.0
  }

  /** The evidently intended sign, (-1)^(i + j). */
  function Sign(i: nat, j: nat): real
  {
    if (i + j) % 2 == 0 then 1.0 else -1.0
  }

  /** The sign as written is +1 exactly for the first point of an even-numbered coefficient. */
  lemma AsWrittenSignIsPositive(i: nat, j: nat)
    ensures AsWrittenSign(i, j) == 1.0 <==> i == 0 && j % 2 == 0
    ensures AsWrittenSign(i, j) == 1.0 || AsWrittenSign(i, j) == -1.0
  {
  }

  /** The falling product n (n - 1) ... (n - j + 1) of lines 17-20; 1 for j = 0. */
  function Falling(n: int, j: nat): int
  {
    if j == 0 then 1 else Falling(n, j - 1) * (n - (j - 1))
  }

  /** The weight of control point i in coefficient j: its sign s divided by i! (j - i)!. */
  function Weight(s: real, i: nat, j: nat): real
    requires i <= j
  {
    s / (Fact(i) * Fact(j - i)) as real
  }

  /** The vector `v` of lines 21-25 after the first k points: the weighted sum of points 0 .. k - 1. */
  function Blend(ps: seq<Pt>, sign: (nat, nat) -> real, j: nat, k: nat): Pt
    requires k <= j + 1 && k <= |ps|
  {
    if k == 0 then Origin else Plus(Blend(ps, sign, j, k - 1), Times(ps[k - 1], Weight(sign(k - 1, j), k - 1, j)))
  }

  /** Coefficient j: the falling product of degree j times the weighted sum of points 0 .. j. */
  function CoefficientOf(ps: seq<Pt>, sign: (nat, nat) -> real, j: nat): Pt
    requires j < |ps|
  {
    Times(Blend(ps, sign, j, j + 1), Falling(|ps| - 1, j) as real)
  }

  /** The power-basis coefficients `getPolynomials` computes, one point per degree. */
  function PowerCoefficients(ps: seq<Pt>, sign: (nat, nat) -> real): seq<Pt>
  {
    seq(|ps|, j requires 0 <= j < |ps| => CoefficientOf(ps, sign, j))
  }

  /** The x coordinates, `c.map(v => v.x)`. */
  function Xs(cs: seq<Pt>): (xs: seq<real>)
    ensures |xs| == |cs| && forall k :: 0 <= k < |cs| ==> xs[k] == cs[k].x
  {
    seq(|cs|, k requires 0 <= k < |cs| => cs[k].x)
  }

  /** The y coordinates, `c.map(v => v.y)`. */
  function Ys(cs: seq<Pt>): (ys: seq<real>)
    ensures |ys| == |cs| && forall k :: 0 <= k < |cs| ==> ys[k] == cs[k].y
  {
    seq(|cs|, k requires 0 <= k < |cs| => cs[k].y)
  }

  /** Whatever the sign rule, the constant coefficient is the first control point. */
  lemma ConstantIsFirstPoint(ps: seq<Pt>, sign: (nat, nat) -> real)
    requires ps != [] && sign(0, 0) == 1.0
    ensures PowerCoefficients(ps, sign)[0] == ps[0]
  {
    assert Weight(sign(0, 0), 0, 0) == 1.0;
    assert Blend(ps, sign, 0, 1) == Plus(Origin, Times(ps[0], 1.0));
  }

  /** Both sign rules give +1 for point 0 of coefficient 0. */
  lemma FirstSignsAgree()
    ensures AsWrittenSign(0, 0) == 1.0 && Sign(0, 0) == 1.0
  {
  }

  /** Line 22 as written: the first unit test's points (1, 2), (10, 5) give x = [1, -11], not [1, 9]. */
  lemma AsWrittenFailsLineTest()
    ensures PowerCoefficients([Pt(1.0, 2.0), Pt(10.0, 5.0)], AsWrittenSign) == [Pt(1.0, 2.0), Pt(-11.0, -7.0)]
  {
    var ps := [Pt(1.0, 2.0), Pt(10.0, 5.0)];
    LineCoefficients(ps, AsWrittenSign);
    assert AsWrittenSign(0, 1) == -1.0 && AsWrittenSign(1, 1) == -1.0;
  }

  /** The intended sign gives the first unit test's coefficients: x = [1, 9] and y = [2, 3]. */
  lemma CorrectedPassesLineTest()
    ensures PowerCoefficients([Pt(1.0, 2.0), Pt(10.0, 5.0)], Sign) == [Pt(1.0, 2.0), Pt(9.0, 3.0)]
  {
    var ps := [Pt(1.0, 2.0), Pt(10.0, 5.0)];
    LineCoefficients(ps, Sign);
    assert Sign(0, 1) == -1.0 && Sign(1, 1) == 1.0;
  }

  /** For two points every factorial is 1, so coefficient 1 is sign(0, 1) P_0 + sign(1, 1) P_1. */
  lemma LineCoefficients(ps: seq<Pt>, sign: (nat, nat) -> real)
    requires |ps| == 2 && sign(0, 0) == 1.0
    ensures PowerCoefficients(ps, sign) == [ps[0], Plus(Times(ps[0], sign(0, 1)), Times(ps[1], sign(1, 1)))]
  {
    assert Fact(0) == 1 && Fact(1) == 1;
    assert Falling(1, 0) == 1 && Falling(1, 1) == 1;
    ConstantIsFirstPoint(ps, sign);
    assert Weight(sign(0, 1), 0, 1) == sign(0, 1) && Weight(sign(1, 1), 1, 1) == sign(1, 1);
    assert Blend(ps, sign, 1, 1) == Plus(Origin, Times(ps[0], sign(0, 1)));
    var b := Blend(ps, sign, 1, 2);
    assert b == Plus(Blend(ps, sign, 1, 1), Times(ps[1], sign(1, 1)));
    assert Times(b, 1.0) == b;
  }

  /** The falling product is the factorial quotient: n (n - 1) ... (n - j + 1) (n - j)! = n!. */
  lemma {:induction false} FallingFactorials(n: nat, j: nat)
    requires j <= n
    ensures Falling(n, j) * Fact(n - j) == Fact(n)
  {
    if j > 0 {
      FallingFactorials(n, j - 1);
      var g, m, f := Falling(n, j - 1), n - (j - 1), Fact(n - j);
      assert Fact(n - (j - 1)) == m * f;
      Regroup(g, m, f);
    }
  }

  /** Regrouping a product of three naturals. */
  lemma Regroup(a: int, b: int, c: int)
    ensures a * b * c == a * (b * c)
  {
  }

  /** A positive common factor cancels. */
  lemma Cancel(a: int, b: int, c: int)
    requires c >= 1 && a * c == b * c
    ensures a == b
  {
  }

  /** The falling product counts ordered choices: n (n - 1) ... (n - j + 1) = C(n, j) j!. */
  lemma FallingIsBinomial(n: nat, j: nat)
    requires j <= n
    ensures Falling(n, j) == Binomial(n, j) * Fact(j)
  {
    FallingFactorials(n, j);
    BinomialFactorials(n, j);
    assert Falling(n, j) >= 0 by {
      FallingPositive(n, j);
    }
    Cancel(Falling(n, j), Binomial(n, j) * Fact(j), Fact(n - j));
  }

  /** Within the degree, the falling product is positive. */
  lemma {:induction false} FallingPositive(n: nat, j: nat)
    requires j <= n
    ensures Falling(n, j) >= 1
  {
    if j > 0 {
      FallingPositive(n, j - 1);
      var g, m := Falling(n, j - 1), n - (j - 1);
      assert g * m >= 1 by {
        NoSmallerMultiple(g, m);
      }
    }
  }

  /**
   * What the falling product does to a weight: with the intended sign,
   * n (n - 1) ... (n - j + 1) * (-1)^(i + j) / (i! (j - i)!) = (-1)^(i + j) C(n, j) C(j, i).
   */
  lemma ScaledWeight(n: nat, i: nat, j: nat, f: real, w: real, c: real)
    requires i <= j <= n
    requires f == Falling(n, j) as real && w == Weight(Sign(i, j), i, j)
    requires c == Sign(i, j) * Choices(n, j, i) as real
    ensures f * w == c
  {
    FallingSplits(n, i, j);
    var d := Fact(i) * Fact(j - i);
    assert d >= 1 by {
      NoSmallerMultiple(Fact(j - i), Fact(i));
    }
    var s, m := Sign(i, j), Choices(n, j, i);
    assert w == s / d as real;
    Quotient(Falling(n, j), m, d, s, w);
  }

  /** C(n, j) C(j, i): the ways to choose j of n and then i of those j. */
  function Choices(n: nat, j: nat, i: nat): nat
  {
    Binomial(n, j) * Binomial(j, i)
  }

  /** n (n - 1) ... (n - j + 1) = C(n, j) C(j, i) i! (j - i)!. */
  lemma FallingSplits(n: nat, i: nat, j: nat)
    requires i <= j <= n
    ensures Falling(n, j) == Choices(n, j, i) * (Fact(i) * Fact(j - i))
  {
    FallingIsBinomial(n, j);
    BinomialFactorials(j, i);
    var d := Fact(i) * Fact(j - i);
    Regroup(Binomial(n, j), Binomial(j, i), d);
    Regroup(Binomial(j, i), Fact(i), Fact(j - i));
  }

  /** A product f = m d times a quotient w = s / d is s m, for a positive d. */
  lemma Quotient(f: int, m: int, d: int, s: real, w: real)
    requires d >= 1 && f == m * d && w == s / d as real
    ensures f as real * w == s * m as real
  {
  }

  /**
   * The intended power-basis coefficient, term by term: the sum over
   * i < k of (-1)^(i + j) C(n, j) C(j, i) P_i, for degree n = |ps| - 1.
   */
  function BinomialForm(ps: seq<Pt>, j: nat, k: nat): Pt
    requires k <= j + 1 && k <= |ps|
  {
    if k == 0 then Origin
    else Plus(BinomialForm(ps, j, k - 1), Times(ps[k - 1], Sign(k - 1, j) * Choices(|ps| - 1, j, k - 1) as real))
  }

  /** Scaling distributes over one more term of the sum. */
  lemma ScaleStep(a: Pt, p: Pt, w: real, f: real, c: real)
    requires f * w == c
    ensures Times(Plus(a, Times(p, w)), f) == Plus(Times(a, f), Times(p, c))
  {
  }

  /** The falling product times the first k weighted points is the first k binomial terms. */
  lemma {:induction false} ScaledBlend(ps: seq<Pt>, j: nat, k: nat)
    requires j < |ps| && k <= j + 1
    ensures Times(Blend(ps, Sign, j, k), Falling(|ps| - 1, j) as real) == BinomialForm(ps, j, k)
  {
    var f := Falling(|ps| - 1, j) as real;
    if k == 0 {
      assert Times(Origin, f) == Origin;
    } else {
      ScaledBlend(ps, j, k - 1);
      var n := |ps| - 1;
      var w := Weight(Sign(k - 1, j), k - 1, j);
      var c := Sign(k - 1, j) * Choices(n, j, k - 1) as real;
      ScaledWeight(n, k - 1, j, f, w, c);
      ScaleStep(Blend(ps, Sign, j, k - 1), ps[k - 1], w, f, c);
    }
  }

  /**
   * With the intended sign, coefficient j is the textbook power-basis
   * coefficient of a degree-n Bézier curve: the sum over i <= j of
   * (-1)^(i + j) C(n, j) C(j, i) P_i.
   */
  lemma CorrectedIsBinomialForm(ps: seq<Pt>, j: nat)
    requires j < |ps|
    ensures PowerCoefficients(ps, Sign)[j] == BinomialForm(ps, j, j + 1)
  {
    ScaledBlend(ps, j, j + 1);
  }

  /** The object `Bezier`: its own copy of the control-point list. */
  class Bezier {
    var vertices: seq<Vertex>

    /** The constructor copies the list (`slice`); the vertex objects themselves are shared. */
    constructor (vertices: seq<Vertex>)
      ensures this.vertices == vertices
    {
      this.vertices := vertices;
    }

    /** `getPolynomials` as written, with the sign of line 22 as JavaScript parses it. */
    method GetPolynomials(cache: FactorialCache) returns (px: Polynomial, py: Polynomial)
      requires cache.Valid()
      modifies cache
      ensures cache.Valid()
      ensures fresh(px) && fresh(py)
      ensures px.coefficients == Xs(PowerCoefficients(Values(vertices), AsWrittenSign))
      ensures py.coefficients == Ys(PowerCoefficients(Values(vertices), AsWrittenSign))
    {
      px, py := Expand(cache, AsWrittenSign);
    }

    /** `getPolynomials` with the sign (-1)^(i + j) that the unit tests expect. */
    method GetPolynomialsCorrected(cache: FactorialCache) returns (px: Polynomial, py: Polynomial)
      requires cache.Valid()
      modifies cache
      ensures cache.Valid()
      ensures fresh(px) && fresh(py)
      ensures px.coefficients == Xs(PowerCoefficients(Values(vertices), Sign))
      ensures py.coefficients == Ys(PowerCoefficients(Values(vertices), Sign))
    {
      px, py := Expand(cache, Sign);
    }

    /**
     * The body of `getPolynomials`, given the sign rule of line 22: for each
     * degree j, the falling product, the weighted sum of points 0 .. j, and
     * their product stored in `c[j]`; then one polynomial per coordinate.
     */
    method Expand(cache: FactorialCache, sign: (nat, nat) -> real) returns (px: Polynomial, py: Polynomial)
      requires cache.Valid()
      modifies cache
      ensures cache.Valid()
      ensures fresh(px) && fresh(py)
      ensures px.coefficients == Xs(PowerCoefficients(old(Values(vertices)), sign))
      ensures py.coefficients == Ys(PowerCoefficients(old(Values(vertices)), sign))
    {
      ghost var ps := Values(vertices);
      var n := |vertices| - 1;
      var blank := new Vertex();
      var c := new Vertex[n + 1](_ => blank);
      for j := 0 to n + 1
        invariant cache.Valid()
        invariant Values(vertices) == ps
        invariant forall k :: 0 <= k < j ==> c[k].Value() == CoefficientOf(ps, sign, k)
      {
        var vertex := Coefficient(cache, j, sign);
        c[j] := vertex;
      }
      ghost var cs := PowerCoefficients(ps, sign);
      px, py := ToPolynomials(c, cs);
    }

    /** Lines 28-29: one polynomial of the x coordinates and one of the y coordinates. */
    static method ToPolynomials(c: array<Vertex>, ghost cs: seq<Pt>) returns (px: Polynomial, py: Polynomial)
      requires c.Length == |cs| && forall k :: 0 <= k < c.Length ==> c[k].Value() == cs[k]
      ensures fresh(px) && fresh(py)
      ensures px.coefficients == Xs(cs) && py.coefficients == Ys(cs)
    {
      var coefficients := Values(c[..]);
      assert coefficients == cs;
      px := new Polynomial(Xs(coefficients));
      py := new Polynomial(Ys(coefficients));
    }

    /** Lines 17-26 for one degree j: the falling product times the weighted sum, as a new vertex. */
    method Coefficient(cache: FactorialCache, j: nat, sign: (nat, nat) -> real) returns (vertex: Vertex)
      requires j < |vertices| && cache.Valid()
      modifies cache
      ensures cache.Valid() && fresh(vertex)
      ensures vertex.Value() == CoefficientOf(old(Values(vertices)), sign, j)
    {
      var f := FallingProduct(|vertices| - 1, j);
      var v := Combine(cache, j, sign);
      v := v.Scale(f as real);
      vertex := Vertex.FromVector(v);
    }

    /** The inner loop of lines 21-25: the sum of the points 0 .. j, each scaled by its weight. */
    method Combine(cache: FactorialCache, j: nat, sign: (nat, nat) -> real) returns (v: Vector)
      requires j < |vertices| && cache.Valid()
      modifies cache
      ensures cache.Valid() && fresh(v)
      ensures v.Value() == Blend(old(Values(vertices)), sign, j, j + 1)
    {
      ghost var ps := Values(vertices);
      v := new Vector();
      for i := 0 to j + 1
        invariant cache.Valid() && fresh(v)
        invariant v.Value() == Blend(ps, sign, j, i)
      {
        var weight := WeightOf(cache, i, j, sign);
        var term := vertices[i].ToVector();
        assert term.Value() == ps[i];
        term := term.Scale(weight);
        v := v.Add(term);
      }
    }
  }

  /** Lines 22-23: the sign divided by i! (j - i)!, both factorials taken from the cache. */
  method WeightOf(cache: FactorialCache, i: nat, j: nat, sign: (nat, nat) -> real) returns (weight: real)
    requires i <= j && cache.Valid()
    modifies cache
    ensures cache.Valid()
    ensures weight == Weight(sign(i, j), i, j)
  {
    var a := cache.Factorial(i);
    var b := cache.Factorial(j - i);
    var denom := a * b;
    weight := sign(i, j) / denom as real;
  }

  /** The loop of lines 17-20: the product of n - m over m < j. */
  method FallingProduct(n: int, j: nat) returns (f: int)
    ensures f == Falling(n, j)
  {
    f := 1;
    for m := 0 to j
      invariant f == Falling(n, m)
    {
      f := f * (n - m);
    }
  }
}
