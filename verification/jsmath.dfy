/**
 * The members of JavaScript's `Math` object that bp2d calls. `PI` is the
 * value `Math.PI` prints. The trigonometric functions are left unspecified
 * (any functions at all), so nothing proved here depends on their values.
 * The magnitude `(x ** 2 + y ** 2) ** 0.5` is `Hypot(x, y)`: a function of
 * |x| and |y| that is non-negative, zero only at (0, 0) and strictly
 * increasing in each of |x| and |y|; those are the only facts the model
 * uses about it.
 */
module JsMath {

  const PI: real := 3.141592653589793

  /** `Math.abs`. */
  function Abs(r: real): real
  {
    if r < 0.0 then -r else r
  }

  /**
   * The facts the model uses about the square root of a^2 + b^2 for
   * non-negative a and b: it is non-negative, zero only at (0, 0), and grows
   * strictly when one argument grows and the other does not shrink.
   */
  type RootOfSquares = f: (real, real) -> real
    | (forall a, b :: 0.0 <= a && 0.0 <= b ==> 0.0 <= f(a, b))
      && (forall a, b :: 0.0 <= a && 0.0 <= b ==> (f(a, b) == 0.0 <==> a == 0.0 && b == 0.0))
      && (forall a, b, a', b' :: 0.0 <= a < a' && 0.0 <= b <= b' ==> Smaller(f, a, b, a', b'))
      && (forall a, b, a', b' :: 0.0 <= a <= a' && 0.0 <= b < b' ==> Smaller(f, a, b, a', b'))
    witness (a: real, b: real) => a + b

  /**
   * f(a, b) < f(a', b'). The growth facts above are stated with it so that
   * they are used only where a proof names this comparison.
   */
  ghost predicate Smaller(f: (real, real) -> real, a: real, b: real, a': real, b': real)
  {
    f(a, b) < f(a', b')
  }

  /** The magnitude computed from the absolute values of the coordinates. */
  const HypotOfAbs: RootOfSquares

  /** `(x ** 2 + y ** 2) ** 0.5`, which depends only on |x| and |y|. */
  function Hypot(x: real, y: real): real
  {
    HypotOfAbs(Abs(x), Abs(y))
  }

  /** The magnitude grows strictly when one coordinate grows in size and the other does not shrink. */
  lemma HypotGrows(x: real, y: real, x': real, y': real)
    requires Abs(x) <= Abs(x') && Abs(y) <= Abs(y') && (Abs(x) < Abs(x') || Abs(y) < Abs(y'))
    ensures Hypot(x, y) < Hypot(x', y')
  {
    assert Smaller(HypotOfAbs, Abs(x), Abs(y), Abs(x'), Abs(y'));
  }

  const Sin: real -> real

  const Cos: real -> real

  const Atan2: (real, real) -> real
}
