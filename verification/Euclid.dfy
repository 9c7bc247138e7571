/** Greatest common factors and what rests on them, with the division of Python integers. */
module Euclid {

  /** Python's remainder has the sign of the divisor. */
  function FloorMod(a: int, b: int): (r: int)
    requires b != 0
    ensures if b > 0 then 0 <= r < b else b < r <= 0
  {
    if b > 0 then a % b else -((-a) % (-b))
  }

  function FloorDiv(a: int, b: int): int
    requires b != 0
  {
    if b > 0 then a / b else (-a) / (-b)
  }

  lemma FloorDivMod(a: int, b: int)
    requires b != 0
    ensures a == b * FloorDiv(a, b) + FloorMod(a, b)
  {
  }

  function Abs(a: int): nat {
    if a < 0 then -a else a
  }

  ghost predicate Divides(d: int, a: int) {
    exists k: int :: a == d * k
  }

  /** The loop of `gcf`. */
  function Loop(result: int, remainder: int): nat
    decreases Abs(remainder)
  {
    if remainder == 0 then Abs(result) else Loop(remainder, FloorMod(result, remainder))
  }

  function Gcf(a: int, b: int): nat {
    if a >= b then Loop(a, b) else Loop(b, a)
  }

  method ComputeGcf(a: int, b: int) returns (r: int)
    ensures r == Gcf(a, b)
  {
    var result := if a >= b then a else b;
    var remainder := if a <= b then a else b;
    while remainder != 0
      invariant Loop(result, remainder) == Gcf(a, b)
      decreases Abs(remainder)
    {
      var newRemainder := FloorMod(result, remainder);
      result := remainder;
      remainder := newRemainder;
    }
    r := Abs(result);
  }

  // ----- The greatest common factor -----

  /** A linear combination of the two starting values. */
  lemma {:induction false} LoopIsCombination(result: int, remainder: int) returns (u: int, v: int)
    ensures Loop(result, remainder) == u * result + v * remainder
    decreases Abs(remainder)
  {
    if remainder == 0 {
      u, v := if result < 0 then -1 else 1, 0;
    } else {
      var q, m := FloorDiv(result, remainder), FloorMod(result, remainder);
      FloorDivMod(result, remainder);
      var s, t := LoopIsCombination(remainder, m);
      u, v := t, s - t * q;
      Recombine(result, remainder, q, m, s, t);
    }
  }

  lemma Recombine(a: int, b: int, q: int, m: int, s: int, t: int)
    requires a == b * q + m
    ensures s * b + t * m == t * a + (s - t * q) * b
  {
    assert t * a == t * (b * q) + t * m;
    assert (s - t * q) * b == s * b - t * q * b;
    assert t * (b * q) == t * q * b;
  }

  lemma DividesCombination(d: int, a: int, b: int, u: int, v: int)
    requires Divides(d, a) && Divides(d, b)
    ensures Divides(d, u * a + v * b)
  {
    var x: int :| a == d * x;
    var y: int :| b == d * y;
    Distribute(d, x, y, u, v);
  }

  lemma Distribute(d: int, x: int, y: int, u: int, v: int)
    ensures u * (d * x) + v * (d * y) == d * (u * x + v * y)
  {
    assert u * (d * x) == d * (u * x) && v * (d * y) == d * (v * y);
  }

  /** How a product compares with its positive factor. */
  lemma ProductSize(g: int, w: int)
    requires g > 0
    ensures w >= 1 ==> g * w >= g
    ensures w >= 2 ==> g * w >= 2 * g
    ensures w <= 0 ==> g * w <= 0
    ensures w <= -1 ==> g * w <= -g
  {
  }

  lemma {:induction false} LoopDivides(result: int, remainder: int)
    ensures Divides(Loop(result, remainder), result) && Divides(Loop(result, remainder), remainder)
    decreases Abs(remainder)
  {
    var g := Loop(result, remainder);
    if remainder == 0 {
      var sign: int := if result < 0 then -1 else 1;
      assert result == g * sign;
      assert remainder == g * 0;
    } else {
      var q, m := FloorDiv(result, remainder), FloorMod(result, remainder);
      FloorDivMod(result, remainder);
      LoopDivides(remainder, m);
      DividesCombination(g, remainder, m, q, 1);
      assert q * remainder + 1 * m == result;
    }
  }

  /** Non-negative, a common factor, and a multiple of every common factor; so it is 0 only when
      both numbers are. */
  ghost predicate IsGcf(g: int, a: int, b: int) {
    && g >= 0 && Divides(g, a) && Divides(g, b)
    && forall d: int :: Divides(d, a) && Divides(d, b) ==> Divides(d, g)
  }

  lemma Bezout(a: int, b: int) returns (u: int, v: int)
    ensures Gcf(a, b) == u * a + v * b
  {
    if a >= b {
      u, v := LoopIsCombination(a, b);
    } else {
      v, u := LoopIsCombination(b, a);
    }
  }

  lemma GcfIsGreatest(a: int, b: int)
    ensures IsGcf(Gcf(a, b), a, b)
    ensures Gcf(a, b) == 0 <==> a == 0 && b == 0
  {
    var g := Gcf(a, b);
    LoopDivides(if a >= b then a else b, if a >= b then b else a);
    var u, v := Bezout(a, b);
    forall d: int | Divides(d, a) && Divides(d, b) ensures Divides(d, g) {
      DividesCombination(d, a, b, u, v);
    }
    if g == 0 {
      var x: int :| a == g * x;
      var y: int :| b == g * y;
    }
  }

  // ----- The least common multiple -----

  function Lcm(a: int, b: int): int {
    var denom := Gcf(a, b);
    if denom == 0 then 0 else a * FloorDiv(b, denom)
  }

  lemma ExactQuotient(a: int, g: int) returns (q: int)
    requires g > 0 && Divides(g, a)
    ensures a == g * q && FloorDiv(a, g) == q
  {
    q :| a == g * q;
    assert FloorMod(a, g) == 0 && FloorDiv(a, g) == q by {
      FloorDivMod(a, g);
      SameQuotient(g, q, FloorDiv(a, g), FloorMod(a, g));
    }
  }

  lemma SameQuotient(g: int, q: int, p: int, r: int)
    requires g > 0 && g * q == g * p + r && 0 <= r < g
    ensures r == 0 && p == q
  {
    assert g * (q - p) == r;
    ProductSize(g, q - p);
  }

  /** A common multiple that divides every common multiple. */
  ghost predicate IsLcm(l: int, a: int, b: int) {
    && Divides(a, l) && Divides(b, l)
    && forall m: int :: Divides(a, m) && Divides(b, m) ==> Divides(l, m)
  }

  /** The multiple as a product with the other number's quotient, either way round. */
  lemma LcmProducts(a: int, b: int) returns (p: int, q: int)
    requires Gcf(a, b) > 0
    ensures a == Gcf(a, b) * p && b == Gcf(a, b) * q
    ensures Lcm(a, b) == a * q && Lcm(a, b) == b * p
  {
    var g := Gcf(a, b);
    GcfIsGreatest(a, b);
    p := ExactQuotient(a, g);
    q := ExactQuotient(b, g);
    Swap(g, p, q);
  }

  lemma Swap(g: int, p: int, q: int)
    ensures (g * p) * q == (g * q) * p
  {
  }

  lemma LcmDivides(a: int, b: int, m: int)
    requires Gcf(a, b) > 0 && Divides(a, m) && Divides(b, m)
    ensures Divides(Lcm(a, b), m)
  {
    var p, q := LcmProducts(a, b);
    var u, v := Bezout(a, b);
    var x: int :| m == a * x;
    var y: int :| m == b * y;
    Cofactors(Gcf(a, b), p, q, u, v);
    MultipleOfLcm(a, b, p, q, u, v, x, y);
  }

  /** Dividing a combination of the numbers by their common factor. */
  lemma Cofactors(g: int, p: int, q: int, u: int, v: int)
    requires g > 0 && g == u * (g * p) + v * (g * q)
    ensures u * p + v * q == 1
  {
    Distribute(g, p, q, u, v);
    ProductSize(g, u * p + v * q);
  }

  lemma MultipleOfLcm(a: int, b: int, p: int, q: int, u: int, v: int, x: int, y: int)
    requires a * x == b * y && a * q == b * p && u * p + v * q == 1
    ensures a * x == (a * q) * (u * y + v * x)
  {
    var m, l := a * x, a * q;
    assert m * (u * p + v * q) == u * (p * m) + v * (q * m) by {
      Distribute(m, p, q, u, v);
    }
    assert p * m == l * y by {
      Swap(b, y, p);
    }
    assert q * m == l * x by {
      Swap(a, x, q);
    }
    Distribute(l, y, x, u, v);
  }

  lemma GcfTimesLcm(g: int, a: int, q: int)
    ensures g * (a * q) == a * (g * q)
  {
  }

  lemma LcmIsLeast(a: int, b: int)
    ensures IsLcm(Lcm(a, b), a, b)
    ensures Gcf(a, b) * Abs(Lcm(a, b)) == Abs(a * b)
  {
    var g, l := Gcf(a, b), Lcm(a, b);
    GcfIsGreatest(a, b);
    if g == 0 {
      assert l == a * 0;
    } else {
      var p, q := LcmProducts(a, b);
      forall m: int | Divides(a, m) && Divides(b, m) ensures Divides(l, m) {
        LcmDivides(a, b, m);
      }
      GcfTimesLcm(g, a, q);
      AbsProduct(g, l);
      hide Lcm, Gcf;
    }
  }

  lemma AbsProduct(g: int, l: int)
    requires g >= 0
    ensures g * Abs(l) == Abs(g * l)
  {
  }

  // ----- Fractions -----

  datatype Fraction = Fraction(num: int, denom: int) | ZeroDivisionError

  function ReduceFraction(num: int, denom: int): Fraction {
    var commonFactor := Abs(Gcf(num, denom));
    if commonFactor == 0 then ZeroDivisionError
    else Fraction(FloorDiv(num, commonFactor), FloorDiv(denom, commonFactor))
  }

  lemma CoprimeQuotients(a: int, b: int, p: int, q: int)
    requires Gcf(a, b) > 0 && a == Gcf(a, b) * p && b == Gcf(a, b) * q
    ensures Gcf(p, q) == 1
  {
    var g, h := Gcf(a, b), Gcf(p, q);
    GcfIsGreatest(p, q);
    var u, v := Bezout(a, b);
    Cofactors(g, p, q, u, v);
    DividesCombination(h, p, q, u, v);
    DividesOne(h);
  }

  lemma DividesOne(h: int)
    requires h >= 0 && Divides(h, 1)
    ensures h == 1
  {
    var k: int :| 1 == h * k;
    if h > 0 {
      ProductSize(h, k);
    }
  }

  /** The reduced fraction has the same ratio and coprime parts; only 0/0 has none. */
  lemma ReducedFraction(num: int, denom: int)
    ensures ReduceFraction(num, denom) == ZeroDivisionError <==> num == 0 && denom == 0
    ensures var r := ReduceFraction(num, denom);
      r.Fraction? ==>
        && r.num * denom == r.denom * num && Gcf(r.num, r.denom) == 1
        && num == Gcf(num, denom) * r.num && denom == Gcf(num, denom) * r.denom
  {
    var g := Gcf(num, denom);
    GcfIsGreatest(num, denom);
    if g != 0 {
      var p := ExactQuotient(num, g);
      var q := ExactQuotient(denom, g);
      Swap(g, p, q);
      CoprimeQuotients(num, denom, p, q);
    }
  }
}
