/**
 * The polynomial of bp2d (src/maths/polynomial.ts): a read-only list of
 * coefficients, lowest degree first, with evaluation, repeated
 * differentiation and formatting.
 *
 * Formatting turns a coefficient's magnitude into text with JavaScript's
 * number-to-string conversion, which is left unspecified here
 * (`NumberText`); degrees are printed as decimal integers.
 */
module Polynomials {

  /** `value ** n` for a natural exponent; `0 ** 0` is 1, as in JavaScript. */
  function Pow(x: real, n: nat): real
  {
    if n == 0 then 1.0 else Pow(x, n - 1) * x
  }

  /** One term of the sum: c * value^i. */
  function Monomial(c: real, value: real, i: nat): real
  {
    c * Pow(value, i)
  }

  /** The sum of the first k terms c[i] * value^i, from the lowest degree up. */
  function EvalUpTo(cs: seq<real>, value: real, k: nat): real
    requires k <= |cs|
  {
    if k == 0 then 0.0 else EvalUpTo(cs, value, k - 1) + Monomial(cs[k - 1], value, k - 1)
  }

  /** The value of the polynomial: the sum of c[i] * value^i over all its coefficients. */
  function Eval(cs: seq<real>, value: real): real
  {
    EvalUpTo(cs, value, |cs|)
  }

  /** Horner's rule from degree k up: c[k] + value * (c[k + 1] + value * (...)). */
  function HornerFrom(cs: seq<real>, value: real, k: nat): real
    requires k <= |cs|
    decreases |cs| - k
  {
    if k == |cs| then 0.0 else cs[k] + value * HornerFrom(cs, value, k + 1)
  }

  /** Horner's rule, an independent way to evaluate the same polynomial. */
  function Horner(cs: seq<real>, value: real): real
  {
    HornerFrom(cs, value, 0)
  }

  /** The arithmetic of one step of `EvalSplitsAt`: value^k * (c + value * h) distributes. */
  lemma HornerShift(p: real, v: real, c: real, h: real, q: real)
    requires q == p * v
    ensures p * (c + v * h) == c * p + q * h
  {
  }

  /**
   * The sum of powers splits at every degree k: the first k terms plus
   * value^k times the Horner value of the remaining coefficients.
   */
  lemma {:induction false} EvalSplitsAt(cs: seq<real>, value: real, k: nat)
    requires k <= |cs|
    ensures Eval(cs, value) == EvalUpTo(cs, value, k) + Pow(value, k) * HornerFrom(cs, value, k)
    decreases |cs| - k
  {
    if k == |cs| {
      assert Pow(value, k) * 0.0 == 0.0;
    } else {
      EvalSplitsAt(cs, value, k + 1);
      var p, h := Pow(value, k), HornerFrom(cs, value, k + 1);
      HornerShift(p, value, cs[k], h, Pow(value, k + 1));
    }
  }

  /** `evaluate`'s sum of powers agrees with Horner's rule on every input. */
  lemma EvalIsHorner(cs: seq<real>, value: real)
    ensures Eval(cs, value) == Horner(cs, value)
  {
    EvalSplitsAt(cs, value, 0);
  }

  /** One differentiation: entry i is c[i + 1] * (i + 1); the constant term drops out. */
  function Derive(cs: seq<real>): (ds: seq<real>)
    ensures |ds| == if cs == [] then 0 else |cs| - 1
  {
    seq(if cs == [] then 0 else |cs| - 1, i requires 0 <= i < |cs| - 1 => cs[i + 1] * (i + 1) as real)
  }

  /** `k` differentiations, the first one first. */
  function DeriveN(cs: seq<real>, k: nat): seq<real>
    decreases k
  {
    if k == 0 then cs else DeriveN(Derive(cs), k - 1)
  }

  /** The rising product a * (a + 1) * ... * (a + k - 1), 1 for k = 0. */
  function Rising(a: nat, k: nat): nat
  {
    if k == 0 then 1 else Rising(a, k - 1) * (a + k - 1)
  }

  /** Differentiating once more after `k` differentiations is `k + 1` of them. */
  lemma {:induction false} DeriveNStep(cs: seq<real>, k: nat)
    ensures DeriveN(cs, k + 1) == Derive(DeriveN(cs, k))
    decreases k
  {
    if k > 0 {
      DeriveNStep(Derive(cs), k - 1);
    }
  }

  /** Differentiating `a` times and then `b` times is differentiating `a + b` times. */
  lemma {:induction false} DeriveNCompose(cs: seq<real>, a: nat, b: nat)
    ensures DeriveN(DeriveN(cs, a), b) == DeriveN(cs, a + b)
    decreases a
  {
    if a > 0 {
      DeriveNCompose(Derive(cs), a - 1, b);
    }
  }

  /** Differentiating once and then once more is the second derivative. */
  lemma TwiceIsSecond(cs: seq<real>)
    ensures DeriveN(DeriveN(cs, 1), 1) == DeriveN(cs, 2)
  {
    DeriveNCompose(cs, 1, 1);
  }

  /**
   * The closed form of the k-th derivative: max(0, n - k) entries, entry i
   * being c[i + k] * (i + 1) * (i + 2) * ... * (i + k).
   */
  lemma {:induction false} DeriveNClosedForm(cs: seq<real>, k: nat)
    ensures |DeriveN(cs, k)| == if |cs| <= k then 0 else |cs| - k
    ensures forall i :: 0 <= i < |DeriveN(cs, k)| ==> DeriveN(cs, k)[i] == cs[i + k] * Rising(i + 1, k) as real
    decreases k
  {
    if k > 0 {
      var ds := Derive(cs);
      DeriveNClosedForm(ds, k - 1);
      forall i | 0 <= i < |DeriveN(cs, k)|
        ensures DeriveN(cs, k)[i] == cs[i + k] * Rising(i + 1, k) as real
      {
        var m, r := i + k, Rising(i + 1, k - 1);
        assert ds[m - 1] == cs[m] * m as real;
        assert DeriveN(cs, k)[i] == ds[m - 1] * r as real;
        assert Rising(i + 1, k) == r * m;
        ScaleTwice(cs[m], m, r);
      }
    }
  }

  /** The arithmetic of one step of `DeriveNClosedForm`. */
  lemma ScaleTwice(c: real, m: nat, r: nat)
    ensures c * m as real * r as real == c * (r * m) as real
  {
  }

  /** The unit tests' cubic 2 + 4x + 5x^2 + x^3: its value at 2 is 38, its derivatives [4, 10, 3] and [10, 6]. */
  lemma CubicExamples()
    ensures Eval([2.0, 4.0, 5.0, 1.0], 2.0) == 38.0
    ensures DeriveN([2.0, 4.0, 5.0, 1.0], 1) == [4.0, 10.0, 3.0]
    ensures DeriveN([2.0, 4.0, 5.0, 1.0], 2) == [10.0, 6.0]
  {
    var cs := [2.0, 4.0, 5.0, 1.0];
    EvalIsHorner(cs, 2.0);
    assert Derive(cs) == [4.0, 10.0, 3.0];
    assert Derive([4.0, 10.0, 3.0]) == [10.0, 6.0];
  }

  /** A decimal digit. */
  predicate IsDigit(ch: char)
  {
    '0' <= ch <= '9'
  }

  /** Some character of the text is a decimal digit. */
  predicate HasDigit(s: string)
  {
    exists k :: 0 <= k < |s| && IsDigit(s[k])
  }

  /** The text ends with the given suffix. */
  predicate EndsWith(s: string, suffix: string)
  {
    |suffix| <= |s| && s[|s| - |suffix|..] == suffix
  }

  /** The decimal digits of a natural number, as JavaScript prints an integer. */
  function Decimal(n: nat): (s: string)
    ensures |s| >= 1
    ensures forall k :: 0 <= k < |s| ==> IsDigit(s[k])
  {
    var digit := "0123456789"[n % 10];
    if n < 10 then [digit] else Decimal(n / 10) + [digit]
  }

  /**
   * What JavaScript prints for a finite non-negative number starts with a
   * digit and never holds an "x" or a "^" (only digits, ".", "e", "+" and "-").
   */
  predicate NumeralText(s: string)
  {
    |s| > 0 && IsDigit(s[0]) && forall k :: 0 <= k < |s| ==> s[k] != 'x' && s[k] != '^'
  }

  /** A text JavaScript may print for a number. */
  type Numeral = s: string | NumeralText(s) witness "0"

  /** `Number.prototype.toString` on a coefficient's magnitude: only the characters it may use are known. */
  const NumberText: real -> Numeral

  /** `Math.abs`. */
  function Abs(r: real): real
  {
    if r < 0.0 then -r else r
  }

  /** The rule of `toString` as written: a magnitude of 1 prints no digits, whatever the degree. */
  predicate AsWrittenHidesDigits(c: real, i: nat)
  {
    Abs(c) == 1.0
  }

  /** The evidently intended rule: a magnitude of 1 is left out only in front of "x". */
  predicate HidesDigits(c: real, i: nat)
  {
    Abs(c) == 1.0 && i >= 1
  }

  /** The separator in front of degree i: "-" for a negative top coefficient, " + " or " - " below the top. */
  function Lead(cs: seq<real>, i: nat): string
    requires i < |cs|
  {
    if i == |cs| - 1 then (if cs[i] < 0.0 then "-" else "")
    else " " + (if cs[i] < 0.0 then "-" else "+") + " "
  }

  /** The variable part of degree i: nothing for degree 0, "x" for degree 1, "x^i" from degree 2. */
  function Power(i: nat): string
  {
    if i < 1 then "" else if i < 2 then "x" else "x^" + Decimal(i)
  }

  /** The magnitude's digits, unless the rule hides them. */
  function Digits(c: real, i: nat, hides: (real, nat) -> bool): string
  {
    if hides(c, i) then "" else NumberText(Abs(c))
  }

  /**
   * The text `toString` appends for degree i: nothing for a zero
   * coefficient, otherwise the separator, the digits and the variable part.
   */
  function Term(cs: seq<real>, i: nat, hides: (real, nat) -> bool): string
    requires i < |cs|
  {
    if cs[i] == 0.0 then "" else Lead(cs, i) + Digits(cs[i], i, hides) + Power(i)
  }

  /** The terms for degrees |cs| - 1 down to `low`, highest first. */
  function Rendering(cs: seq<real>, low: nat, hides: (real, nat) -> bool): string
    requires low <= |cs|
    decreases |cs| - low
  {
    if low == |cs| then "" else Rendering(cs, low + 1, hides) + Term(cs, low, hides)
  }

  /** Neither the separator nor the digits hold an "x" or a "^". */
  lemma FrontPlain(cs: seq<real>, i: nat, hides: (real, nat) -> bool)
    requires i < |cs|
    ensures forall k :: 0 <= k < |Lead(cs, i) + Digits(cs[i], i, hides)| ==>
      (Lead(cs, i) + Digits(cs[i], i, hides))[k] != 'x' && (Lead(cs, i) + Digits(cs[i], i, hides))[k] != '^'
  {
    var l, d := Lead(cs, i), Digits(cs[i], i, hides);
    forall k | 0 <= k < |l + d|
      ensures (l + d)[k] != 'x' && (l + d)[k] != '^'
    {
      if k >= |l| {
        assert (l + d)[k] == d[k - |l|];
      }
    }
  }

  /**
   * A non-zero term ends in its variable part: in "x" exactly for degree 1,
   * and in "^" and the degree exactly from degree 2 on.
   */
  lemma TermVariable(cs: seq<real>, i: nat, hides: (real, nat) -> bool)
    requires i < |cs| && cs[i] != 0.0
    ensures EndsWith(Term(cs, i, hides), Power(i))
    ensures EndsWith(Term(cs, i, hides), "x") <==> i == 1
    ensures EndsWith(Term(cs, i, hides), "^" + Decimal(i)) <==> i >= 2
  {
    FrontPlain(cs, i, hides);
    VariableSuffix(Lead(cs, i) + Digits(cs[i], i, hides), i);
  }

  /** A front part without "x" or "^", followed by the variable part of degree i. */
  lemma VariableSuffix(f: string, i: nat)
    requires forall k :: 0 <= k < |f| ==> f[k] != 'x' && f[k] != '^'
    ensures EndsWith(f + Power(i), Power(i))
    ensures EndsWith(f + Power(i), "x") <==> i == 1
    ensures EndsWith(f + Power(i), "^" + Decimal(i)) <==> i >= 2
  {
    if i == 0 {
      ConstantSuffix(f);
    } else if i == 1 {
      LinearSuffix(f);
    } else {
      HigherSuffix(f, i, Decimal(i));
    }
  }

  /** Degree 0: the text is the front part, which ends neither in "x" nor in "^0". */
  lemma ConstantSuffix(f: string)
    requires forall k :: 0 <= k < |f| ==> f[k] != 'x' && f[k] != '^'
    ensures f + Power(0) == f
    ensures !EndsWith(f, "x") && !EndsWith(f, "^" + Decimal(0))
  {
    assert |f| > 0 ==> f[|f| - 1] != 'x';
    CaretFree(f, "^" + Decimal(0));
  }

  /** Degree 1: the text ends in "x" and holds no "^". */
  lemma LinearSuffix(f: string)
    requires forall k :: 0 <= k < |f| ==> f[k] != 'x' && f[k] != '^'
    ensures EndsWith(f + "x", "x") && !EndsWith(f + "x", "^" + Decimal(1))
  {
    var t := f + "x";
    assert t[|t| - 1..] == "x";
    assert forall k :: 0 <= k < |t| ==> t[k] != '^' by {
      forall k | 0 <= k < |t| ensures t[k] != '^' {
        if k < |f| {
          assert t[k] == f[k];
        }
      }
    }
    CaretFree(t, "^" + Decimal(1));
  }

  /** From degree 2: the text ends in "x^" and the degree's digits, so not in "x". */
  lemma HigherSuffix(f: string, i: nat, d: string)
    requires i >= 2 && d == Decimal(i)
    ensures Power(i) == "x^" + d
    ensures EndsWith(f + ("x^" + d), "x^" + d) && EndsWith(f + ("x^" + d), "^" + d)
    ensures !EndsWith(f + ("x^" + d), "x")
  {
    var p := "x^" + d;
    var t := f + p;
    assert t[|t| - |p|..] == p;
    assert t[|t| - 1] == d[|d| - 1];
    assert p[1..] == "^" + d;
    assert t[|t| - |"^" + d|..] == t[|t| - |p|..][1..];
  }

  /** A text without a "^" does not end in a suffix that starts with one. */
  lemma CaretFree(t: string, s: string)
    requires s != [] && s[0] == '^'
    requires forall k :: 0 <= k < |t| ==> t[k] != '^'
    ensures !EndsWith(t, s)
  {
    assert |s| <= |t| ==> t[|t| - |s|..][0] == t[|t| - |s|];
  }

  /**
   * A non-zero term shows the magnitude's digits exactly when the rule does
   * not hide them: the text in front of the variable part holds a digit if
   * and only if the digits are printed, and then it is the separator followed
   * by the magnitude's text.
   */
  lemma TermDigits(cs: seq<real>, i: nat, hides: (real, nat) -> bool)
    requires i < |cs| && cs[i] != 0.0
    ensures |Power(i)| <= |Term(cs, i, hides)|
    ensures HasDigit(Term(cs, i, hides)[..|Term(cs, i, hides)| - |Power(i)|]) <==> !hides(cs[i], i)
    ensures !hides(cs[i], i) ==>
      Term(cs, i, hides)[..|Term(cs, i, hides)| - |Power(i)|] == Lead(cs, i) + NumberText(Abs(cs[i]))
  {
    var l, d, p := Lead(cs, i), Digits(cs[i], i, hides), Power(i);
    var t := Term(cs, i, hides);
    assert t == (l + d) + p;
    assert t[..|t| - |p|] == l + d;
    assert forall k :: 0 <= k < |l| ==> !IsDigit(l[k]);
    if hides(cs[i], i) {
      assert l + d == l;
    } else {
      assert (l + d)[|l|] == d[0];
    }
  }

  /**
   * A non-zero term starts with its sign: " - " or " + " below the top
   * degree, and "-" at the top degree when the coefficient is negative.
   */
  lemma TermSign(cs: seq<real>, i: nat, hides: (real, nat) -> bool)
    requires i < |cs| && cs[i] != 0.0
    ensures i < |cs| - 1 ==>
      |Term(cs, i, hides)| >= 3 && Term(cs, i, hides)[..3] == (if cs[i] < 0.0 then " - " else " + ")
    ensures i == |cs| - 1 && cs[i] < 0.0 ==> |Term(cs, i, hides)| >= 1 && Term(cs, i, hides)[0] == '-'
  {
    var l := Lead(cs, i);
    assert Term(cs, i, hides) == l + (Digits(cs[i], i, hides) + Power(i));
  }

  /** Under the intended rule every non-zero constant term shows a digit. */
  lemma ConstantShowsDigit(cs: seq<real>)
    requires cs != [] && cs[0] != 0.0
    ensures HasDigit(Term(cs, 0, HidesDigits))
  {
    TermDigits(cs, 0, HidesDigits);
    var t := Term(cs, 0, HidesDigits);
    assert t[..|t| - 0] == t;
  }

  /** A zero coefficient adds nothing to the text. */
  lemma ZeroSkipped(cs: seq<real>, low: nat, hides: (real, nat) -> bool)
    requires low < |cs| && cs[low] == 0.0
    ensures Rendering(cs, low, hides) == Rendering(cs, low + 1, hides)
  {
  }

  /** Coefficients that are all zero print as the empty string. */
  lemma {:induction false} AllZeroIsEmpty(cs: seq<real>, low: nat, hides: (real, nat) -> bool)
    requires low <= |cs|
    requires forall i :: low <= i < |cs| ==> cs[i] == 0.0
    ensures Rendering(cs, low, hides) == ""
    decreases |cs| - low
  {
    if low < |cs| {
      AllZeroIsEmpty(cs, low + 1, hides);
    }
  }

  /** The two highest terms of the second formatting example. */
  lemma ExampleHighTerms()
    ensures Term([-3.0, 0.0, 1.0, -2.0], 3, AsWrittenHidesDigits) == "-" + NumberText(2.0) + "x^3"
    ensures Term([-3.0, 0.0, 1.0, -2.0], 2, AsWrittenHidesDigits) == " + x^2"
  {
    assert Decimal(3) == "3" && Decimal(2) == "2";
  }

  /** The two lowest terms of the second formatting example. */
  lemma ExampleLowTerms()
    ensures Term([-3.0, 0.0, 1.0, -2.0], 1, AsWrittenHidesDigits) == ""
    ensures Term([-3.0, 0.0, 1.0, -2.0], 0, AsWrittenHidesDigits) == " - " + NumberText(3.0)
  {
  }

  /** A four-coefficient polynomial prints its terms from degree 3 down to degree 0. */
  lemma RenderingOfFour(cs: seq<real>, hides: (real, nat) -> bool)
    requires |cs| == 4
    ensures Rendering(cs, 0, hides) == Term(cs, 3, hides) + Term(cs, 2, hides) + Term(cs, 1, hides) + Term(cs, 0, hides)
  {
    assert Rendering(cs, 4, hides) == "";
    assert Rendering(cs, 3, hides) == Term(cs, 3, hides);
    assert Rendering(cs, 2, hides) == Term(cs, 3, hides) + Term(cs, 2, hides);
    assert Rendering(cs, 1, hides) == Term(cs, 3, hides) + Term(cs, 2, hides) + Term(cs, 1, hides);
  }

  /** The second formatting example: -3 + x^2 - 2x^3 prints as "-2x^3 + x^2 - 3". */
  lemma FormatExample()
    ensures Rendering([-3.0, 0.0, 1.0, -2.0], 0, AsWrittenHidesDigits) == "-" + NumberText(2.0) + "x^3 + x^2 - " + NumberText(3.0)
  {
    var cs := [-3.0, 0.0, 1.0, -2.0];
    RenderingOfFour(cs, AsWrittenHidesDigits);
    ExampleHighTerms();
    ExampleLowTerms();
    var h := AsWrittenHidesDigits;
    JoinExample(Term(cs, 3, h), Term(cs, 2, h), Term(cs, 1, h), Term(cs, 0, h), NumberText(2.0), NumberText(3.0));
  }

  /** The string arithmetic of `FormatExample`. */
  lemma JoinExample(a: string, b: string, c: string, d: string, two: string, three: string)
    requires a == "-" + two + "x^3" && b == " + x^2" && c == "" && d == " - " + three
    ensures a + b + c + d == "-" + two + "x^3 + x^2 - " + three
  {
    calc {
      a + b + c + d;
      ("-" + two + "x^3") + " + x^2" + "" + (" - " + three);
      { AppendTwice("-" + two + "x^3", " + x^2", " - " + three); }
      ("-" + two + "x^3") + (" + x^2" + (" - " + three));
      { assert " + x^2" + (" - " + three) == " + x^2 - " + three; }
      ("-" + two + "x^3") + (" + x^2 - " + three);
      { AppendTwice("-" + two, "x^3", " + x^2 - " + three); }
      ("-" + two) + ("x^3" + (" + x^2 - " + three));
      { assert "x^3" + (" + x^2 - " + three) == "x^3 + x^2 - " + three; }
      ("-" + two) + ("x^3 + x^2 - " + three);
    }
  }

  /** As written, a constant term of magnitude 1 prints no digit: 1 + x prints as "x + ", which has none. */
  lemma UnitConstantPrintsNoDigit()
    ensures Rendering([1.0, 1.0], 0, AsWrittenHidesDigits) == "x + "
    ensures !HasDigit(Rendering([1.0, 1.0], 0, AsWrittenHidesDigits))
  {
    assert Term([1.0, 1.0], 1, AsWrittenHidesDigits) == "x";
    assert Term([1.0, 1.0], 0, AsWrittenHidesDigits) == " + ";
  }

  /** Under the intended rule, 1 + x prints as "x + 1": the constant keeps its digits. */
  lemma UnitConstantKeepsDigit()
    ensures Rendering([1.0, 1.0], 0, HidesDigits) == "x + " + NumberText(1.0)
  {
    assert Term([1.0, 1.0], 1, HidesDigits) == "x";
    assert Term([1.0, 1.0], 0, HidesDigits) == " + " + NumberText(1.0);
  }

  /** A polynomial: its coefficients, lowest degree first, never changed after construction. */
  class Polynomial {
    const coefficients: seq<real>

    /** The constructor keeps its own copy of the coefficients. */
    constructor (coefficients: seq<real>)
      ensures this.coefficients == coefficients
    {
      this.coefficients := coefficients;
    }

    /** `evaluate`: the sum of c[i] * value^i, accumulated from degree 0 upwards. */
    method Evaluate(value: real) returns (sum: real)
      ensures sum == Eval(coefficients, value)
      ensures sum == Horner(coefficients, value)
    {
      sum := 0.0;
      for i := 0 to |coefficients|
        invariant sum == EvalUpTo(coefficients, value, i)
      {
        sum := sum + coefficients[i] * Pow(value, i);
      }
      EvalIsHorner(coefficients, value);
    }

    /**
     * `getDerivative`: `order` rounds, each replacing the coefficients by
     * c[i] * i for i from 1; no round for an order of 0 or less.
     */
    method GetDerivative(order: int := 1) returns (p: Polynomial)
      ensures fresh(p)
      ensures p.coefficients == DeriveN(coefficients, if order > 0 then order else 0)
    {
      var baseCoefficients := coefficients;
      var derivativeCoefficients := baseCoefficients;
      var remaining := order;
      ghost var done: nat := 0;
      while remaining > 0
        invariant remaining > 0 ==> done + remaining == order
        invariant remaining <= 0 ==> done == (if order > 0 then order else 0)
        invariant baseCoefficients == derivativeCoefficients == DeriveN(coefficients, done)
        decreases remaining
      {
        derivativeCoefficients := [];
        ghost var derived := Derive(baseCoefficients);
        var i := 1;
        while i < |baseCoefficients|
          invariant 1 <= i <= |derived| + 1
          invariant derivativeCoefficients == derived[..i - 1]
        {
          assert derived[i - 1] == baseCoefficients[(i - 1) + 1] * ((i - 1) + 1) as real;
          assert derived[..i] == derived[..i - 1] + [baseCoefficients[i] * i as real];
          derivativeCoefficients := derivativeCoefficients + [baseCoefficients[i] * i as real];
          i := i + 1;
        }
        assert derived[..|derived|] == derived;
        DeriveNStep(coefficients, done);
        baseCoefficients := derivativeCoefficients;
        remaining := remaining - 1;
        done := done + 1;
      }
      p := new Polynomial(derivativeCoefficients);
    }

    /** `toString` as written: the terms from the highest degree down to degree 0. */
    method ToString() returns (str: string)
      ensures str == Rendering(coefficients, 0, AsWrittenHidesDigits)
    {
      str := Render(AsWrittenHidesDigits);
    }

    /** `toString` with the intended digit rule: a constant of magnitude 1 keeps its digits. */
    method ToStringCorrected() returns (str: string)
      ensures str == Rendering(coefficients, 0, HidesDigits)
    {
      str := Render(HidesDigits);
    }

    /** The loop of `toString`, from the highest degree down, under the given digit rule. */
    method Render(hides: (real, nat) -> bool) returns (str: string)
      ensures str == Rendering(coefficients, 0, hides)
    {
      str := "";
      var i := |coefficients| - 1;
      while i >= 0
        invariant -1 <= i < |coefficients|
        invariant str == Rendering(coefficients, i + 1, hides)
      {
        str := AppendTerm(str, coefficients, i, hides);
        i := i - 1;
      }
    }
  }

  /** Appending two pieces one after the other appends their concatenation. */
  lemma AppendTwice(s: string, a: string, b: string)
    ensures s + a + b == s + (a + b)
  {
  }

  /**
   * One round of the loop of `toString`: nothing for a zero coefficient;
   * otherwise the separator, the digits (unless the rule hides them) and
   * the variable part, appended to the text so far.
   */
  method AppendTerm(str: string, coefficients: seq<real>, i: nat, hides: (real, nat) -> bool) returns (more: string)
    requires i < |coefficients|
    ensures more == str + Term(coefficients, i, hides)
  {
    var coefficient := coefficients[i];
    if coefficient == 0.0 {
      return str;
    }
    var coefficientString: string := NumberText(Abs(coefficient));
    if hides(coefficient, i) {
      coefficientString := "";
    }
    var separator: string := "";
    if i == |coefficients| - 1 {
      if coefficient < 0.0 {
        separator := "-";
      }
    } else {
      separator := " " + (if coefficient < 0.0 then "-" else "+") + " ";
    }
    var variable: string := "";
    if i >= 2 {
      variable := "x^" + Decimal(i);
    } else if i == 1 {
      variable := "x";
    }
    more := str + (separator + coefficientString + variable);
  }
}
