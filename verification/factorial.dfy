/**
 * The memoised factorial of bp2d (src/maths/factorial.ts). The source keeps
 * two module-level variables: the array `f` of factorials computed so far
 * and the counter `i`, the next index to fill. Here they are the fields of
 * one object, `FactorialCache`, whose constructor is the module's
 * initialisation; every call of `factorial` goes through that object.
 *
 * JavaScript numbers are doubles: products above 2^53 lose precision. The
 * model computes with unbounded integers.
 */
module Factorials {

  /** n!, the reference definition. */
  function Fact(n: nat): (r: nat)
    ensures r >= 1
  {
    if n == 0 then 1 else n * Fact(n - 1)
  }

  /** The factorial grows: k <= n implies k! <= n!. */
  lemma {:induction false} FactMonotone(k: nat, n: nat)
    requires k <= n
    ensures Fact(k) <= Fact(n)
    decreases n
  {
    if k < n {
      FactMonotone(k, n - 1);
      NoSmallerMultiple(Fact(n - 1), n);
    }
  }

  /** A positive multiple of a natural number is at least that number. */
  lemma NoSmallerMultiple(a: nat, m: nat)
    requires m >= 1
    ensures a <= m * a
  {
  }

  /** The binomial coefficient by Pascal's rule, an independent reference for n! / (k! (n - k)!). */
  function Binomial(n: nat, k: nat): nat
  {
    if k == 0 then 1
    else if n == 0 then 0
    else Binomial(n - 1, k - 1) + Binomial(n - 1, k)
  }

  /** Above the diagonal Pascal's triangle is zero. */
  lemma {:induction false} BinomialAbove(n: nat, k: nat)
    requires n < k
    ensures Binomial(n, k) == 0
  {
    if n > 0 {
      BinomialAbove(n - 1, k - 1);
      BinomialAbove(n - 1, k);
    }
  }

  /** The diagonal of Pascal's triangle is 1: C(n, n) = 1. */
  lemma {:induction false} BinomialDiagonal(n: nat)
    ensures Binomial(n, n) == 1
  {
    if n > 0 {
      BinomialDiagonal(n - 1);
      BinomialAbove(n - 1, n);
    }
  }

  /**
   * The arithmetic of one step of `BinomialFactorials`: from the two rows
   * above, C(n, k) = C(n - 1, k - 1) + C(n - 1, k) and n! = n (n - 1)!.
   */
  lemma PascalStep(n: nat, k: nat, c: nat, c1: nat, c2: nat, fk: nat, fk1: nat, fnk: nat, fnk1: nat, fn: nat, fn1: nat)
    requires 1 <= k < n
    requires c == c1 + c2 && fn == n * fn1
    requires fk == k * fk1 && fnk == (n - k) * fnk1
    requires c1 * fk1 * fnk == fn1
    requires c2 * fk * fnk1 == fn1
    ensures c * fk * fnk == fn
  {
  }

  /** Pascal's triangle holds the factorial quotient: C(n, k) k! (n - k)! = n!. */
  lemma {:induction false} BinomialFactorials(n: nat, k: nat)
    requires k <= n
    ensures Binomial(n, k) * Fact(k) * Fact(n - k) == Fact(n)
  {
    if k == 0 {
    } else if k == n {
      BinomialDiagonal(n);
      assert Fact(n - k) == 1;
    } else {
      BinomialFactorials(n - 1, k - 1);
      BinomialFactorials(n - 1, k);
      var fk, fnk, fn := Fact(k), Fact(n - k), Fact(n);
      var fk1, fnk1, fn1 := Fact(k - 1), Fact(n - 1 - k), Fact(n - 1);
      assert fk == k * fk1;
      assert fnk == (n - k) * fnk1;
      assert fn == n * fn1;
      assert Fact(n - 1 - (k - 1)) == fnk;
      PascalStep(n, k, Binomial(n, k), Binomial(n - 1, k - 1), Binomial(n - 1, k), fk, fk1, fnk, fnk1, fn, fn1);
    }
  }

  /** The module-level cache: `f[k]` holds k! for every index below the counter `i`. */
  class FactorialCache {
    var f: seq<int>
    var i: int

    /** `f` has exactly `i` entries, the factorials 0!, 1!, ..., (i - 1)!, and `i` is at least 2. */
    ghost predicate Valid()
      reads this
    {
      2 <= i && |f| == i && forall k :: 0 <= k < |f| ==> f[k] == Fact(k)
    }

    /** The module's initialisation: `f = [1, 1]` and `i = 2`. */
    constructor ()
      ensures Valid()
      ensures f == [1, 1] && i == 2
    {
      f := [1, 1];
      i := 2;
    }

    /**
     * `factorial(n)`. An index already in `f` is answered from the cache,
     * which is left alone. Otherwise the loop extends `f` up to index n,
     * leaving `i` at n + 1, and returns n!. A negative n is never in the
     * array, and the loop does not run: the result is the last cached
     * factorial, (i - 1)!, and the cache does not change.
     */
    method Factorial(n: int) returns (result: int)
      requires Valid()
      modifies this
      ensures Valid()
      ensures n >= 0 ==> result == Fact(n)
      ensures n < 0 ==> result == Fact(old(i) - 1)
      ensures n < old(i) ==> f == old(f) && i == old(i)
      ensures n >= old(i) ==> i == n + 1 && old(f) <= f
      ensures old(i) <= i
    {
      if 0 <= n < |f| {
        return f[n];
      }
      result := f[i - 1];
      while i <= n
        invariant 2 <= old(i) <= i && |f| == i
        invariant n >= old(i) ==> i <= n + 1
        invariant n < old(i) ==> i == old(i) && f == old(f)
        invariant forall k :: 0 <= k < |f| ==> f[k] == Fact(k)
        invariant old(f) <= f
        invariant result == Fact(i - 1)
        decreases n - i
      {
        assert Fact(i) == i * Fact(i - 1);
        ghost var before := f;
        result := result * i;
        f := f + [result];
        assert before <= f;
        i := i + 1;
      }
    }
  }

  /** The cache as the source leaves it at start-up answers 0! = 1! = 1 and fills in 5! = 120. */
  method FactorialExamples()
  {
    var cache := new FactorialCache();
    var one := cache.Factorial(0);
    assert one == 1;
    var big := cache.Factorial(5);
    assert big == 120 && cache.i == 6;
    var again := cache.Factorial(3);
    assert again == 6 && cache.i == 6;
  }
}
