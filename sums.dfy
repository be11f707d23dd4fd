/** Finite sums over sets, as in Python's `sum(f(x) for x in s)`.
    Python iterates a set in an unspecified order; `Sum` picks elements
    arbitrarily and `SumRemove` shows the result does not depend on the choice. */
module Sums {

  /** The element type of the summed sets (phoneme symbols). */
  type Symbol = string

  /** The sum of `f` over the finite set `s`. */
  ghost function Sum(s: set<Symbol>, f: Symbol -> real): real
    decreases s
  {
    if s == {} then 0.0 else var x :| x in s; f(x) + Sum(s - {x}, f)
  }

  /** Any element can be split off first: the sum is independent of iteration order. */
  lemma {:induction false} SumRemove(s: set<Symbol>, f: Symbol -> real, y: Symbol)
    requires y in s
    ensures Sum(s, f) == f(y) + Sum(s - {y}, f)
    decreases s
  {
    var x :| x in s && Sum(s, f) == f(x) + Sum(s - {x}, f);
    if x != y {
      SumRemove(s - {x}, f, y);
      SumRemove(s - {y}, f, x);
      assert s - {x} - {y} == s - {y} - {x};
    }
  }

  /** Adding one fresh element adds its value: the step of an accumulating loop. */
  lemma SumInsert(s: set<Symbol>, f: Symbol -> real, y: Symbol)
    requires y !in s
    ensures Sum(s + {y}, f) == Sum(s, f) + f(y)
  {
    SumRemove(s + {y}, f, y);
    assert s + {y} - {y} == s;
  }

  /** Sums of functions that agree on `s` agree. */
  lemma {:induction false} SumCongruence(s: set<Symbol>, f: Symbol -> real, g: Symbol -> real)
    requires forall x :: x in s ==> f(x) == g(x)
    ensures Sum(s, f) == Sum(s, g)
    decreases s
  {
    if s != {} {
      var x :| x in s;
      SumRemove(s, f, x);
      SumRemove(s, g, x);
      SumCongruence(s - {x}, f, g);
    }
  }

  /** Sums add pointwise. */
  lemma {:induction false} SumAdd(s: set<Symbol>, f: Symbol -> real, g: Symbol -> real, h: Symbol -> real)
    requires forall x :: x in s ==> h(x) == f(x) + g(x)
    ensures Sum(s, h) == Sum(s, f) + Sum(s, g)
    decreases s
  {
    if s != {} {
      var x :| x in s;
      SumRemove(s, f, x);
      SumRemove(s, g, x);
      SumRemove(s, h, x);
      SumAdd(s - {x}, f, g, h);
    }
  }

  /** A constant factor comes out of a sum. */
  lemma {:induction false} SumScale(s: set<Symbol>, f: Symbol -> real, h: Symbol -> real, a: real)
    requires forall x :: x in s ==> h(x) == a * f(x)
    ensures Sum(s, h) == a * Sum(s, f)
    decreases s
  {
    if s != {} {
      var x :| x in s;
      SumRemove(s, f, x);
      SumRemove(s, h, x);
      SumScale(s - {x}, f, h, a);
      assert a * (f(x) + Sum(s - {x}, f)) == a * f(x) + a * Sum(s - {x}, f);
    }
  }

  /** A common denominator comes out of a sum. */
  lemma {:induction false} SumDivide(s: set<Symbol>, f: Symbol -> real, h: Symbol -> real, k: real)
    requires k != 0.0
    requires forall x :: x in s ==> h(x) == f(x) / k
    ensures Sum(s, h) == Sum(s, f) / k
    decreases s
  {
    if s != {} {
      var x :| x in s;
      SumRemove(s, f, x);
      SumRemove(s, h, x);
      SumDivide(s - {x}, f, h, k);
      QuotientsAdd(f(x), Sum(s - {x}, f), k);
    }
  }

  lemma QuotientsAdd(a: real, b: real, k: real)
    requires k != 0.0
    ensures a / k + b / k == (a + b) / k
  {
  }

  /** A function constant on `s` sums to that constant times `|s|`. */
  lemma {:induction false} SumConstant(s: set<Symbol>, f: Symbol -> real, k: real)
    requires forall x :: x in s ==> f(x) == k
    ensures Sum(s, f) == k * |s| as real
    decreases s
  {
    if s != {} {
      var x :| x in s;
      SumRemove(s, f, x);
      SumConstant(s - {x}, f, k);
    }
  }

  /** A function that is 1 at `y` and 0 elsewhere on `s` sums to 1 when `y` is in `s`, to 0 otherwise. */
  lemma SumIndicator(s: set<Symbol>, f: Symbol -> real, y: Symbol)
    requires forall x :: x in s ==> f(x) == if x == y then 1.0 else 0.0
    ensures Sum(s, f) == if y in s then 1.0 else 0.0
  {
    if y in s {
      SumRemove(s, f, y);
      SumConstant(s - {y}, f, 0.0);
    } else {
      SumConstant(s, f, 0.0);
    }
  }

  /** A non-negative term never exceeds the sum it belongs to. */
  lemma {:induction false} SumBoundsTerm(s: set<Symbol>, f: Symbol -> real, y: Symbol)
    requires y in s
    requires forall x :: x in s ==> f(x) >= 0.0
    ensures f(y) <= Sum(s, f)
  {
    SumRemove(s, f, y);
    SumNonNegative(s - {y}, f);
  }

  lemma {:induction false} SumNonNegative(s: set<Symbol>, f: Symbol -> real)
    requires forall x :: x in s ==> f(x) >= 0.0
    ensures Sum(s, f) >= 0.0
    decreases s
  {
    if s != {} {
      var x :| x in s;
      SumRemove(s, f, x);
      SumNonNegative(s - {x}, f);
    }
  }

  /** `max(k - d, 0)` of Python's `max(Ni - self.d, 0)`. */
  function Max0(x: real): (r: real)
    ensures r >= 0.0 && r >= x
    ensures r == x || r == 0.0
  {
    if x > 0.0 then x else 0.0
  }

  /** The pointwise discounted count `x => max(f(x) - d, 0)`. */
  function Discounted(f: Symbol -> real, d: real): Symbol -> real
  {
    x => Max0(f(x) - d)
  }

  /** The constant function `k`. */
  function Constant(k: real): Symbol -> real
  {
    x => k
  }

  /** The function `f` scaled by the factor `a`. */
  function Scaled(f: Symbol -> real, a: real): Symbol -> real
  {
    x => a * f(x)
  }

  /** The elements of `s` where `f` is positive. */
  function Support(s: set<Symbol>, f: Symbol -> real): set<Symbol>
  {
    set x | x in s && f(x) > 0.0
  }

  /** `n` copies of `d` added up; keeps the counting proofs free of multiplication. */
  function Times(n: nat, d: real): real
  {
    if n == 0 then 0.0 else Times(n - 1, d) + d
  }

  lemma {:induction false} TimesIsProduct(n: nat, d: real)
    ensures Times(n, d) == n as real * d
  {
    if n > 0 {
      TimesIsProduct(n - 1, d);
      assert (n - 1) as real * d + d == n as real * d;
    }
  }

  /** Absolute discounting of counts: subtracting `d` (at most 1) from every positive
      count removes exactly `d` once per positive count. */
  lemma {:induction false} DiscountedSum(s: set<Symbol>, f: Symbol -> real, d: real)
    requires 0.0 <= d <= 1.0
    requires forall x :: x in s ==> f(x) == 0.0 || f(x) >= 1.0
    ensures Sum(s, Discounted(f, d)) == Sum(s, f) - Times(|Support(s, f)|, d)
    decreases s
  {
    if s == {} {
      assert Support(s, f) == {};
      assert Times(|Support(s, f)|, d) == 0.0;
    } else {
      var x :| x in s;
      DiscountedSum(s - {x}, f, d);
      SumRemove(s, f, x);
      SumRemove(s, Discounted(f, d), x);
      DiscountedStep(s, f, d, x);
    }
  }

  /** One element's share of `DiscountedSum`: its value loses `d` exactly when it joins
      the support. */
  lemma DiscountedStep(s: set<Symbol>, f: Symbol -> real, d: real, x: Symbol)
    requires x in s && 0.0 <= d <= 1.0
    requires f(x) == 0.0 || f(x) >= 1.0
    ensures Discounted(f, d)(x) - Times(|Support(s - {x}, f)|, d) == f(x) - Times(|Support(s, f)|, d)
  {
    SupportStep(s, f, x);
  }

  lemma SupportStep(s: set<Symbol>, f: Symbol -> real, x: Symbol)
    requires x in s
    ensures f(x) > 0.0 ==> Support(s, f) == Support(s - {x}, f) + {x} && x !in Support(s - {x}, f)
    ensures f(x) <= 0.0 ==> Support(s, f) == Support(s - {x}, f)
  {
  }
}
