/**
 * The numbers of the pipeline. Prices, volumes and ratios are floats in the
 * source; here they are exact reals, extended with the three non-finite values
 * the pipeline can produce (a missing ratio defaults to +infinity, a zero
 * volume or a zero price divides by zero, a failed join leaves NaN).
 * Comparisons follow IEEE 754: every comparison with NaN is false.
 * Rounding is round-half-to-even of the exact value, as pandas/numpy round.
 */
module Numeric {
  import opened Wrappers

  datatype Ext = Fin(v: real) | PosInf | NegInf | NaN

  /** IEEE `a < b`. */
  predicate Lt(a: Ext, b: Ext) {
    if a.NaN? || b.NaN? then false
    else if a.Fin? && b.Fin? then a.v < b.v
    else (a.NegInf? && !b.NegInf?) || (b.PosInf? && !a.PosInf?)
  }

  /** IEEE `a <= b`. */
  predicate Le(a: Ext, b: Ext) {
    Lt(a, b) || (a == b && !a.NaN?)
  }

  /** Sign of a number that is not NaN. */
  function SignOf(a: Ext): int
    requires !a.NaN?
  {
    match a
    case Fin(x) => if x > 0.0 then 1 else if x < 0.0 then -1 else 0
    case PosInf => 1
    case NegInf => -1
  }

  /** IEEE `a * b`: an infinity times zero is NaN. */
  function Mul(a: Ext, b: Ext): Ext {
    if a.NaN? || b.NaN? then NaN
    else if a.Fin? && b.Fin? then Fin(a.v * b.v)
    else if SignOf(a) * SignOf(b) > 0 then PosInf
    else if SignOf(a) * SignOf(b) < 0 then NegInf
    else NaN
  }

  /** IEEE `x / y` on finite operands: dividing by zero gives a signed infinity, or NaN for 0/0. */
  function Div(x: real, y: real): (r: Ext)
    ensures y != 0.0 <==> r.Fin?
    ensures y != 0.0 ==> r.v * y == x
    ensures r.NaN? <==> y == 0.0 && x == 0.0
  {
    if y != 0.0 then Fin(x / y)
    else if x > 0.0 then PosInf
    else if x < 0.0 then NegInf
    else NaN
  }

  /** IEEE `a / y` for a finite divisor (an infinity divided by +0 keeps its sign). */
  function DivBy(a: Ext, y: real): Ext {
    match a
    case Fin(x) => Div(x, y)
    case NaN => NaN
    case PosInf => if y < 0.0 then NegInf else PosInf
    case NegInf => if y < 0.0 then PosInf else NegInf
  }

  /** `abs(x)` on a finite value. */
  function AbsReal(x: real): (r: real)
    ensures r >= 0.0 && (r == x || r == -x)
  {
    if x < 0.0 then -x else x
  }

  /** `abs(a)`. */
  function Abs(a: Ext): (r: Ext)
    ensures r.NaN? <==> a.NaN?
    ensures !r.NaN? ==> !r.NegInf? && (r.Fin? ==> r.v >= 0.0)
  {
    match a
    case Fin(x) => Fin(AbsReal(x))
    case NegInf => PosInf
    case _ => a
  }

  /** Python's built-in `min(a, b)`: the first argument unless the second compares strictly less. */
  function PyMin(a: Ext, b: Ext): (r: Ext)
    ensures r == a || r == b
    ensures Lt(b, a) ==> r == b
    ensures !Lt(b, a) ==> r == a
  {
    if Lt(b, a) then b else a
  }

  /** Python's `x or float('inf')` for an optional float: None and 0.0 are falsy, NaN is truthy. */
  function OrInfinity(g: Option<Ext>): (r: Ext)
    ensures g.None? ==> r == PosInf
    ensures g.Some? && g.value != Fin(0.0) ==> r == g.value
    ensures g == Some(Fin(0.0)) ==> r == PosInf
  {
    if g.None? || g.value == Fin(0.0) then PosInf else g.value
  }

  /** The integer nearest to `x`, ties to the even neighbour (numpy's rint). */
  function RoundHalfEven(x: real): (n: int)
    ensures x - 0.5 <= n as real <= x + 0.5
    ensures (n as real == x - 0.5 || n as real == x + 0.5) ==> n % 2 == 0
  {
    var f := x.Floor;
    var d := x - f as real;
    if d < 0.5 then f
    else if d > 0.5 then f + 1
    else if f % 2 == 0 then f
    else f + 1
  }

  /** The number of decimal places the pipeline rounds to: 0, 2 or 3 (it never uses more). */
  type Digits = d: nat | d <= 3

  /** 10 to the power `d`, as a real. */
  function Scale(d: Digits): (s: real)
    ensures s >= 1.0
  {
    if d == 0 then 1.0 else if d == 1 then 10.0 else if d == 2 then 100.0 else 1000.0
  }

  /** `round(x, d)`: the multiple of 10^-d nearest to `x`, ties to even (one case per scale, so the arithmetic stays linear). */
  function RoundTo(x: real, d: Digits): real {
    if d == 0 then RoundHalfEven(x) as real
    else if d == 1 then RoundHalfEven(x * 10.0) as real / 10.0
    else if d == 2 then RoundHalfEven(x * 100.0) as real / 100.0
    else RoundHalfEven(x * 1000.0) as real / 1000.0
  }

  /** `round(x, d)` moves `x` by at most half a unit of the last kept decimal. */
  lemma RoundToBounds(x: real, d: Digits)
    ensures x - 0.5 / Scale(d) <= RoundTo(x, d) <= x + 0.5 / Scale(d)
  {
    if d == 1 {
      ScaledBounds(x, 10.0, RoundHalfEven(x * 10.0) as real);
    } else if d == 2 {
      ScaledBounds(x, 100.0, RoundHalfEven(x * 100.0) as real);
    } else if d == 3 {
      ScaledBounds(x, 1000.0, RoundHalfEven(x * 1000.0) as real);
    }
  }

  lemma ScaledBounds(x: real, s: real, n: real)
    requires s >= 1.0
    requires x * s - 0.5 <= n <= x * s + 0.5
    ensures x - 0.5 / s <= n / s <= x + 0.5 / s
  {
    assert n / s - x == (n - x * s) / s;
  }

  /** `round` applied to a float that may be non-finite: infinities and NaN are returned unchanged. */
  function RoundExt(a: Ext, d: Digits): (r: Ext)
    ensures r.Fin? <==> a.Fin?
    ensures !a.Fin? ==> r == a
    ensures a.Fin? ==> r.v == RoundTo(a.v, d)
  {
    if a.Fin? then Fin(RoundTo(a.v, d)) else a
  }

  // ---------------------------------------------------------------------------
  // Properties of rounding

  lemma RoundHalfEvenMonotone(x: real, y: real)
    requires x <= y
    ensures RoundHalfEven(x) <= RoundHalfEven(y)
  {
    var fx, fy := x.Floor, y.Floor;
    if fx == fy {
      var dx, dy := x - fx as real, y - fy as real;
      assert dx <= dy;
    } else {
      assert fx < fy;
      assert RoundHalfEven(x) <= fx + 1;
      assert fy <= RoundHalfEven(y);
    }
  }

  /** A whole number rounds to itself. */
  lemma RoundHalfEvenOfInteger(n: int)
    ensures RoundHalfEven(n as real) == n
  {
    assert (n as real).Floor == n;
  }

  /** Rounding an already rounded value changes nothing. */
  lemma RoundToIdempotent(x: real, d: Digits)
    ensures RoundTo(RoundTo(x, d), d) == RoundTo(x, d)
  {
    if d == 0 {
      RoundHalfEvenOfInteger(RoundHalfEven(x));
    } else if d == 1 {
      RoundedIsFixed(RoundHalfEven(x * 10.0), 10.0);
    } else if d == 2 {
      RoundedIsFixed(RoundHalfEven(x * 100.0), 100.0);
    } else {
      RoundedIsFixed(RoundHalfEven(x * 1000.0), 1000.0);
    }
  }

  lemma RoundedIsFixed(n: int, s: real)
    requires s >= 1.0
    ensures RoundHalfEven(n as real / s * s) as real / s == n as real / s
  {
    assert n as real / s * s == n as real;
    RoundHalfEvenOfInteger(n);
  }

  /** A whole number is already rounded to any number of decimals. */
  lemma RoundToInteger(n: int, d: Digits)
    ensures RoundTo(n as real, d) == n as real
  {
    if d == 0 {
      RoundHalfEvenOfInteger(n);
    } else if d == 1 {
      assert n as real * 10.0 == (n * 10) as real;
      RoundHalfEvenOfInteger(n * 10);
    } else if d == 2 {
      assert n as real * 100.0 == (n * 100) as real;
      RoundHalfEvenOfInteger(n * 100);
    } else {
      assert n as real * 1000.0 == (n * 1000) as real;
      RoundHalfEvenOfInteger(n * 1000);
    }
  }

  /** Rounding a value that lies between two whole numbers stays between them. */
  lemma RoundHalfEvenWithin(x: real, lo: int, hi: int)
    requires lo as real <= x <= hi as real
    ensures lo <= RoundHalfEven(x) <= hi
  {
    RoundHalfEvenMonotone(lo as real, x);
    RoundHalfEvenMonotone(x, hi as real);
    RoundHalfEvenOfInteger(lo);
    RoundHalfEvenOfInteger(hi);
  }

  lemma RoundToMonotone(x: real, y: real, d: Digits)
    requires x <= y
    ensures RoundTo(x, d) <= RoundTo(y, d)
  {
    if d == 0 {
      RoundHalfEvenMonotone(x, y);
    } else if d == 1 {
      RoundHalfEvenMonotone(x * 10.0, y * 10.0);
    } else if d == 2 {
      RoundHalfEvenMonotone(x * 100.0, y * 100.0);
    } else {
      RoundHalfEvenMonotone(x * 1000.0, y * 1000.0);
    }
  }

  lemma ScaleMonotone(x: real, y: real, s: real)
    requires x <= y && s > 0.0
    ensures x * s <= y * s
  {
    assert y * s - x * s == (y - x) * s;
  }

  lemma DivideMonotone(x: real, y: real, s: real)
    requires x <= y && s > 0.0
    ensures x / s <= y / s
  {
    assert y / s - x / s == (y - x) / s;
  }

  lemma RoundToZero(d: Digits)
    ensures RoundTo(0.0, d) == 0.0
  {
    RoundToInteger(0, d);
  }

  /** `round(x, d)` keeps the sign: never positive for x <= 0, never negative for x >= 0. */
  lemma RoundToKeepsSign(x: real, d: Digits)
    ensures x <= 0.0 ==> RoundTo(x, d) <= 0.0
    ensures x >= 0.0 ==> RoundTo(x, d) >= 0.0
  {
    RoundToZero(d);
    if x <= 0.0 { RoundToMonotone(x, 0.0, d); }
    if x >= 0.0 { RoundToMonotone(0.0, x, d); }
  }

  // ---------------------------------------------------------------------------
  // Properties of the comparisons

  /** `p <= min(a, b)` holds exactly when `p` is below both, as long as neither bound is NaN. */
  lemma LeMinIffLeBoth(p: Ext, a: Ext, b: Ext)
    requires !a.NaN? && !b.NaN?
    ensures Le(p, PyMin(a, b)) <==> Le(p, a) && Le(p, b)
  {
  }

  /** Python's `min` is not symmetric under NaN: a NaN first argument wins, a NaN second argument is ignored. */
  lemma PyMinWithNaN(a: Ext)
    ensures PyMin(NaN, a) == NaN
    ensures PyMin(a, NaN) == a
  {
  }
}
