/** The yield scaler of the documentation site's recipe page: Euclid's
    greatest common divisor, the integer fractions ingredient quantities are
    written as, and the yield counter that rescales those quantities. */
module Yields {
  import opened Strings
  import opened Numerals

  // ---------------------------------------------------------------------
  // Greatest common divisor

  /** `d * k`, named so that divisibility can be stated with a trigger. */
  function Mul(d: nat, k: nat): nat {
    d * k
  }

  /** `d` divides `n`. */
  ghost predicate Divides(d: nat, n: nat) {
    exists k: nat :: n == Mul(d, k)
  }

  /** The value Euclid's loop computes: the pair `(a, b)` becomes
      `(b, a % b)` until `b` is zero. */
  function GcdOf(a: nat, b: nat): nat
    decreases b
  {
    if b == 0 then a else GcdOf(b, a % b)
  }

  /** `gcd(a, b)`: Euclid's loop over the two local variables. */
  method Gcd(a: nat, b: nat) returns (g: nat)
    ensures g == GcdOf(a, b)
  {
    var x, y := a, b;
    while y != 0
      invariant GcdOf(x, y) == GcdOf(a, b)
      decreases y
    {
      x, y := y, x % y;
    }
    g := x;
  }

  lemma DividesSelf(n: nat)
    ensures Divides(n, n) && Divides(n, 0)
  {
    assert n == Mul(n, 1) && 0 == Mul(n, 0);
  }

  /** A common divisor of `a` and `b` divides `a % b`. */
  lemma DividesRemainder(d: nat, a: nat, b: nat)
    requires b > 0 && Divides(d, a) && Divides(d, b)
    ensures Divides(d, a % b)
  {
    var i: nat :| a == Mul(d, i);
    var j: nat :| b == Mul(d, j);
    var q := a / b;
    assert d > 0;
    assert a == q * b + a % b;
    assert q * b == d * (q * j) by {
      assert q * (d * j) == d * (q * j);
    }
    assert a % b == d * (i - q * j);
    var k := i - q * j;
    NegativeProduct(d, k);
    assert a % b == Mul(d, k);
  }

  lemma NegativeProduct(d: nat, k: int)
    requires d > 0
    ensures k < 0 ==> d * k < 0
  {
  }

  /** A divisor of `b` and of `a % b` divides `a`. */
  lemma DividesFromRemainder(d: nat, a: nat, b: nat)
    requires b > 0 && Divides(d, b) && Divides(d, a % b)
    ensures Divides(d, a)
  {
    var j: nat :| b == Mul(d, j);
    var r: nat :| a % b == Mul(d, r);
    var q := a / b;
    assert a == q * b + a % b;
    assert q * (d * j) == d * (q * j);
    assert a == Mul(d, q * j + r);
  }

  /** The result divides both arguments. */
  lemma {:induction false} GcdDivides(a: nat, b: nat)
    ensures Divides(GcdOf(a, b), a) && Divides(GcdOf(a, b), b)
    decreases b
  {
    if b == 0 {
      DividesSelf(a);
    } else {
      GcdDivides(b, a % b);
      DividesFromRemainder(GcdOf(a, b), a, b);
    }
  }

  /** Every common divisor of the arguments divides the result: it is the
      greatest. */
  lemma {:induction false} GcdGreatest(d: nat, a: nat, b: nat)
    requires Divides(d, a) && Divides(d, b)
    ensures Divides(d, GcdOf(a, b))
    decreases b
  {
    if b != 0 {
      DividesRemainder(d, a, b);
      GcdGreatest(d, b, a % b);
    }
  }

  /** The result is zero only when both arguments are. */
  lemma {:induction false} GcdPositive(a: nat, b: nat)
    ensures GcdOf(a, b) > 0 <==> a > 0 || b > 0
    decreases b
  {
    if b != 0 {
      GcdPositive(b, a % b);
    }
  }

  /** A divisor of a positive number is at most that number. */
  lemma DividesAtMost(d: nat, n: nat)
    requires n > 0 && Divides(d, n)
    ensures 0 < d <= n
  {
    var k: nat :| n == Mul(d, k);
    assert k >= 1;
    assert d * k >= d * 1;
  }

  // ---------------------------------------------------------------------
  // Fractions

  /** An integer fraction; the page builds them from unsigned numbers. */
  datatype Fraction = Fraction(numer: nat, denom: nat)

  /** `f` and `g` stand for the same rational number. */
  ghost predicate SameValue(f: Fraction, g: Fraction) {
    f.numer * g.denom == g.numer * f.denom
  }

  /** `reduce`: both parts divided by their greatest common divisor. */
  function Reduce(f: Fraction): Fraction
    requires f.numer > 0 || f.denom > 0
  {
    var divisor := GcdOf(f.numer, f.denom);
    GcdPositive(f.numer, f.denom);
    Fraction(Quotient(f.numer, divisor), Quotient(f.denom, divisor))
  }

  /** `n / d` on unsigned numbers. */
  function Quotient(n: nat, d: nat): nat
    requires d > 0
  {
    n / d
  }

  /** `multiply`: numerators and denominators multiplied. */
  function Multiply(f: Fraction, g: Fraction): Fraction {
    Fraction(f.numer * g.numer, f.denom * g.denom)
  }

  /** Dividing by a divisor: the quotient times the divisor is the number. */
  lemma DivideExactly(d: nat, n: nat)
    requires d > 0 && Divides(d, n)
    ensures n / d * d == n
  {
    var k: nat :| n == Mul(d, k);
    var q, r := n / d, n % d;
    assert d * k == d * q + r;
    assert d * (k - q) == r by {
      assert d * (k - q) == d * k - d * q;
    }
    ProductBounds(d, k - q);
    assert k == q;
  }

  /** A positive multiple of `d` is at least `d`, a negative one at most
      minus `d`. */
  lemma ProductBounds(d: nat, x: int)
    requires d > 0
    ensures x >= 1 ==> d * x >= d
    ensures x <= -1 ==> d * x + d <= 0
  {
  }

  /** The reduced parts times the greatest common divisor are the parts
      of `f`. */
  lemma ReduceParts(f: Fraction)
    requires f.numer > 0 || f.denom > 0
    ensures GcdOf(f.numer, f.denom) > 0
    ensures Reduce(f).numer * GcdOf(f.numer, f.denom) == f.numer
    ensures Reduce(f).denom * GcdOf(f.numer, f.denom) == f.denom
  {
    var g := GcdOf(f.numer, f.denom);
    GcdPositive(f.numer, f.denom);
    GcdDivides(f.numer, f.denom);
    DivideExactly(g, f.numer);
    DivideExactly(g, f.denom);
  }

  /** Reducing keeps the value and keeps a denominator positive. */
  lemma ReduceSameValue(f: Fraction)
    requires f.numer > 0 || f.denom > 0
    ensures SameValue(Reduce(f), f)
    ensures Reduce(f).denom > 0 <==> f.denom > 0
  {
    var g := GcdOf(f.numer, f.denom);
    var r := Reduce(f);
    ReduceParts(f);
    CrossScaled(r.numer, r.denom, g);
  }

  lemma CrossScaled(a: nat, b: nat, g: nat)
    ensures a * (b * g) == (a * g) * b
  {
  }

  /** A reduced fraction has no common divisor other than 1. */
  lemma ReduceLowest(f: Fraction)
    requires f.numer > 0 || f.denom > 0
    ensures GcdOf(Reduce(f).numer, Reduce(f).denom) == 1
  {
    var g := GcdOf(f.numer, f.denom);
    var r := Reduce(f);
    ReduceParts(f);
    var h := GcdOf(r.numer, r.denom);
    assert r.numer > 0 || r.denom > 0;
    GcdPositive(r.numer, r.denom);
    GcdDivides(r.numer, r.denom);
    ScaledDivisor(h, g, r.numer);
    ScaledDivisor(h, g, r.denom);
    GcdGreatest(h * g, f.numer, f.denom);
    DividesAtMost(h * g, g);
    AtMostOnce(h, g);
  }

  /** A positive `h` with `h * g <= g` is 1. */
  lemma AtMostOnce(h: nat, g: nat)
    requires g > 0 && h > 0 && h * g <= g
    ensures h == 1
  {
    assert g * (h - 1) == h * g - g;
    ProductBounds(g, h - 1);
  }

  /** If `h` divides `n`, then `h * g` divides `n * g`. */
  lemma ScaledDivisor(h: nat, g: nat, n: nat)
    requires Divides(h, n)
    ensures Divides(h * g, n * g)
  {
    var k: nat :| n == Mul(h, k);
    assert n * g == (h * g) * k;
    assert n * g == Mul(h * g, k);
  }

  /** The product stands for the product of the values. */
  lemma MultiplySameValue(f: Fraction, f': Fraction, g: Fraction)
    requires SameValue(f, f')
    ensures SameValue(Multiply(f, g), Multiply(f', g))
  {
    var p, p' := Multiply(f, g), Multiply(f', g);
    assert p.numer * p'.denom == (f.numer * f'.denom) * (g.numer * g.denom);
    assert p'.numer * p.denom == (f'.numer * f.denom) * (g.numer * g.denom);
  }

  // ---------------------------------------------------------------------
  // Display

  /** U+2044 FRACTION SLASH, written between numerator and denominator. */
  const FRACTION_SLASH: char := '⁄'

  /** `toString`: the whole part when the fraction is at least one, then
      the proper remainder over the denominator when it is not zero, the two
      separated by a space. */
  function ToString(f: Fraction): string
    requires f.denom > 0
  {
    var whole := if f.numer >= f.denom then [NatToString(f.numer / f.denom)] else [];
    var numer := if f.numer >= f.denom then f.numer % f.denom else f.numer;
    var proper := if numer > 0 then [NatToString(numer) + [FRACTION_SLASH] + NatToString(f.denom)] else [];
    Join(whole + proper, [' '])
  }

  /** Zero is shown as nothing at all, and only zero. */
  lemma ToStringEmpty(f: Fraction)
    requires f.denom > 0
    ensures ToString(f) == [] <==> f.numer == 0
  {
    if f.numer >= f.denom {
      var proper := if f.numer % f.denom > 0 then [NatToString(f.numer % f.denom) + [FRACTION_SLASH] + NatToString(f.denom)] else [];
      assert |NatToString(f.numer / f.denom)| > 0;
      assert [NatToString(f.numer / f.denom)] + proper != [];
    }
  }

  /** A whole number shows as its digits, which read back as the quotient. */
  lemma ToStringWhole(f: Fraction)
    requires f.denom > 0 && f.numer > 0 && f.numer % f.denom == 0
    ensures ToString(f) == NatToString(f.numer / f.denom)
    ensures Value(0, ToString(f)) * f.denom == f.numer
  {
    assert f.numer >= f.denom;
    ValueOfNatToString(f.numer / f.denom);
    WholeAndRemainder(Value(0, NatToString(f.numer / f.denom)), 0, f.numer, f.denom);
  }

  /** A proper fraction shows as numerator, fraction slash, denominator. */
  lemma ToStringProper(f: Fraction)
    requires 0 < f.numer < f.denom
    ensures ToString(f) == NatToString(f.numer) + [FRACTION_SLASH] + NatToString(f.denom)
  {
    assert [] + [NatToString(f.numer) + [FRACTION_SLASH] + NatToString(f.denom)] == [NatToString(f.numer) + [FRACTION_SLASH] + NatToString(f.denom)];
  }

  /** A mixed number shows the whole part, a space, and the remainder over
      the denominator; the whole part times the denominator plus the
      remainder, read back from the digits, is the numerator. */
  lemma ToStringMixed(f: Fraction)
    requires f.denom > 0 && f.numer > f.denom && f.numer % f.denom > 0
    ensures var w, r := NatToString(f.numer / f.denom), NatToString(f.numer % f.denom);
      ToString(f) == w + [' '] + r + [FRACTION_SLASH] + NatToString(f.denom)
      && Value(0, w) * f.denom + Value(0, r) == f.numer
  {
    var w, r := NatToString(f.numer / f.denom), NatToString(f.numer % f.denom);
    var proper := r + [FRACTION_SLASH] + NatToString(f.denom);
    assert ToString(f) == Join([w, proper], [' ']) by {
      assert [w] + [proper] == [w, proper];
    }
    JoinPair(w, proper, [' ']);
    AppendFour(w, [' '], r, [FRACTION_SLASH] + NatToString(f.denom));
    ValueOfNatToString(f.numer / f.denom);
    ValueOfNatToString(f.numer % f.denom);
    WholeAndRemainder(Value(0, w), Value(0, r), f.numer, f.denom);
  }

  lemma WholeAndRemainder(w: nat, r: nat, n: nat, d: nat)
    requires d > 0 && w == n / d && r == n % d
    ensures w * d + r == n
  {
  }

  lemma AppendFour(a: string, b: string, c: string, d: string)
    ensures a + b + (c + d) == a + b + c + d
  {
  }

  lemma JoinPair(a: string, b: string, sep: string)
    ensures Join([a, b], sep) == a + sep + b
  {
    assert [a, b][1..] == [b];
  }

  // ---------------------------------------------------------------------
  // The yield counter

  /** A quantity written as a fraction, rescaled to `current` servings out
      of the recipe's `default` ones: `reset` when the two agree, otherwise
      `defaultValue.multiply(fraction).reduce()`. */
  function Scaled(value: Fraction, current: nat, default: nat): Fraction
    requires value.denom > 0 && default > 0
  {
    if current == default then value
    else Reduce(Multiply(value, Fraction(current, default)))
  }

  /** A rescaled quantity stands for the original one times
      `current / default`, and keeps a positive denominator. */
  lemma ScaledValue(value: Fraction, current: nat, default: nat)
    requires value.denom > 0 && default > 0
    ensures Scaled(value, current, default).denom > 0
    ensures SameValue(Scaled(value, current, default), Multiply(value, Fraction(current, default)))
  {
    var product := Multiply(value, Fraction(current, default));
    assert product.denom > 0;
    if current == default {
      assert value.numer * (value.denom * default) == (value.numer * default) * value.denom;
    } else {
      ReduceSameValue(product);
    }
  }

  /** The ingredient manager of a recipe page: the yield it was written
      for, the yield currently chosen, and the fraction-valued quantities
      as written and as currently shown. */
  class IngredientManager {
    const defaultYield: nat
    var currentYield: nat
    const defaults: seq<Fraction>
    var values: seq<Fraction>

    ghost predicate Valid()
      reads this
    {
      defaultYield > 0 && currentYield > 0 && |values| == |defaults|
      && forall i :: 0 <= i < |defaults| ==> defaults[i].denom > 0
    }

    /** Every shown quantity is its written one rescaled to the current
        yield. */
    ghost predicate Refreshed()
      requires Valid()
      reads this
    {
      forall i :: 0 <= i < |values| ==> values[i] == Scaled(defaults[i], currentYield, defaultYield)
    }

    constructor(defaultYield: nat, defaults: seq<Fraction>)
      requires defaultYield > 0 && forall i :: 0 <= i < |defaults| ==> defaults[i].denom > 0
      ensures Valid() && Refreshed()
      ensures this.defaultYield == defaultYield && this.defaults == defaults
      ensures currentYield == defaultYield && values == defaults
    {
      this.defaultYield := defaultYield;
      currentYield := defaultYield;
      this.defaults := defaults;
      values := defaults;
    }

    /** `refresh`: each quantity reset when the yield is the default one,
        otherwise scaled by `currentYield / defaultYield`. */
    method Refresh()
      requires Valid()
      modifies this
      ensures Valid() && Refreshed()
      ensures currentYield == old(currentYield)
    {
      var scaled := [];
      for i := 0 to |defaults|
        invariant |scaled| == i
        invariant forall k :: 0 <= k < i ==> scaled[k] == Scaled(defaults[k], currentYield, defaultYield)
      {
        scaled := scaled + [Scaled(defaults[i], currentYield, defaultYield)];
      }
      values := scaled;
    }

    /** `decrease`: one serving less, never below one. */
    method Decrease()
      requires Valid()
      modifies this
      ensures Valid()
      ensures currentYield == if old(currentYield) > 1 then old(currentYield) - 1 else old(currentYield)
      ensures old(currentYield) > 1 ==> Refreshed()
      ensures old(currentYield) <= 1 ==> values == old(values)
    {
      if currentYield > 1 {
        currentYield := currentYield - 1;
        Refresh();
      }
    }

    /** `increase`: one serving more. */
    method Increase()
      requires Valid()
      modifies this
      ensures Valid() && Refreshed()
      ensures currentYield == old(currentYield) + 1
    {
      currentYield := currentYield + 1;
      Refresh();
    }

    /** `reset`: back to the yield the recipe was written for, which shows
        every quantity as written. */
    method Reset()
      requires Valid()
      modifies this
      ensures Valid() && Refreshed()
      ensures currentYield == defaultYield && values == defaults
    {
      currentYield := defaultYield;
      Refresh();
    }
  }
}
