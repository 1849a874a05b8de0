/** Decimal arrays and the helpers the decimal kernels share: powers of ten,
    `max_value`, `number_digits`, `adjusted_precision_scale`,
    `get_parameters`, Rust's truncating `i128::checked_div`, and the
    element-wise drivers `binary` / `binary_checked` with
    `combine_validities`. These helpers live outside the modelled files; they
    are defined here with the behaviour the kernels rely on. */
module Decimal {
  import opened Common

  /** Why a kernel panics. The overflow variants carry the precision that
      the panic message prints. */
  datatype Panic =
    | SubtractOverflow(precision: nat)
    | MultiplicationOverflow(precision: nat)
    | DivisionByZero
    | Unreachable

  /** The value of a computation that may panic. A kernel returns
      `Eval<Result<PrimitiveArray>>`: it panics, or returns `Ok` / `Err`. */
  datatype Eval<T> = Value(get: T) | Panicked(reason: Panic)

  /** A `PrimitiveArray<i128>` holding scaled decimal integers: its logical
      type, its values buffer and its optional validity bitmap. The value
      below a null slot is still present in `values`. */
  datatype PrimitiveArray = PrimitiveArray(dataType: DataType, values: seq<int>, validity: Option<seq<bool>>)
  {
    ghost predicate Valid() {
      validity.Some? ==> |validity.value| == |values|
    }

    function Len(): nat { |values| }

    /** Slot `i` is null. */
    predicate IsNull(i: nat)
      requires Valid() && i < |values|
    {
      validity.Some? && !validity.value[i]
    }
  }

  /** The logical contents that array equality compares: each slot's value,
      or `None` for a null slot. */
  function Cells(a: PrimitiveArray): (c: seq<Option<int>>)
    requires a.Valid()
    ensures |c| == |a.values|
    ensures forall i :: 0 <= i < |c| ==> c[i] == if a.IsNull(i) then None else Some(a.values[i])
  {
    seq(|a.values|, i requires 0 <= i < |a.values| => if a.IsNull(i) then None else Some(a.values[i]))
  }

  /** The validity bitmap `v` marks slot `i` as valid (an absent bitmap
      marks every slot valid). */
  predicate ValidAt(v: Option<seq<bool>>, i: nat)
    requires v.Some? ==> i < |v.value|
  {
    v.None? || v.value[i]
  }

  // ---------------------------------------------------------------------
  // Powers of ten and digit counts

  function Pow10(n: nat): (r: nat)
    ensures r >= 1
  {
    if n == 0 then 1 else 10 * Pow10(n - 1)
  }

  lemma {:induction false} Pow10Add(m: nat, n: nat)
    ensures Pow10(m + n) == Pow10(m) * Pow10(n)
  {
    if m > 0 {
      Pow10Add(m - 1, n);
      assert Pow10(m + n) == 10 * Pow10(m - 1 + n);
    }
  }

  /** `max_value(p)`: the decimal number made of `p` nines, built as
      `res = res * 10 + 9` repeated `p` times. */
  function MaxValue(p: nat): (m: int)
    ensures m >= 0
  {
    if p == 0 then 0 else MaxValue(p - 1) * 10 + 9
  }

  /** `p` nines make `10^p - 1`: the largest magnitude of precision `p`. */
  lemma {:induction false} MaxValueIsPow10(p: nat)
    ensures MaxValue(p) == Pow10(p) - 1
  {
    if p > 0 {
      MaxValueIsPow10(p - 1);
    }
  }

  /** The bounds of `Decimal(5, 2)`: values up to `999.99`, stored scaled
      by `10^2`. */
  lemma DecimalFiveTwo()
    ensures MaxValue(5) == 99999 && Pow10(2) == 100
  {
    MaxValueIsPow10(5);
  }


  /** Number of decimal digits of a non-negative number (`0` has none):
      the loop `while num != 0 { num /= 10; digit += 1 }`. */
  function Digits(n: nat): nat
  {
    if n == 0 then 0 else 1 + Digits(n / 10)
  }

  /** `number_digits(num)`: the digits of `num.abs()`. */
  function NumberDigits(x: int): nat
  {
    Digits(Abs(x))
  }

  /** A magnitude fits precision `p` exactly when it has at most `p` digits. */
  lemma {:induction false} FitsIffDigits(n: nat, p: nat)
    ensures n <= MaxValue(p) <==> Digits(n) <= p
  {
    MaxValueIsPow10(p);
    if p == 0 {
    } else if n == 0 {
    } else {
      FitsIffDigits(n / 10, p - 1);
      MaxValueIsPow10(p - 1);
      assert Pow10(p) == 10 * Pow10(p - 1);
      assert n < Pow10(p) <==> n / 10 < Pow10(p - 1);
    }
  }

  /** `number_digits(x)` is the least precision whose `max_value` bounds
      `|x|`: it fits, and every smaller precision is exceeded. */
  lemma NumberDigitsIsLeastPrecision(x: int)
    ensures Abs(x) <= MaxValue(NumberDigits(x))
    ensures forall p: nat :: p < NumberDigits(x) ==> Abs(x) > MaxValue(p)
  {
    FitsIffDigits(Abs(x), NumberDigits(x));
    forall p: nat | p < NumberDigits(x) ensures Abs(x) > MaxValue(p) {
      FitsIffDigits(Abs(x), p);
    }
  }

  /** `1000000` has seven digits. */
  lemma SevenDigits()
    ensures NumberDigits(1000000) == 7
  {
    assert Digits(1000000) == 1 + Digits(100000);
    assert Digits(100000) == 1 + Digits(10000);
    assert Digits(10000) == 1 + Digits(1000);
    assert Digits(1000) == 1 + Digits(100);
    assert Digits(100) == 1 + Digits(10);
    assert Digits(10) == 1 + Digits(1);
    assert Digits(1) == 1 + Digits(0);
  }

  // ---------------------------------------------------------------------
  // Precision and scale

  /** The type is a decimal whose parameters Arrow accepts: precision at
      most 38 and scale at most the precision (so that `p - s` and
      `10i128.pow(s)` cannot overflow). */
  predicate WellFormedDecimal(t: DataType)
  {
    t.Decimal? && t.scale <= t.precision <= 38
  }

  /** `adjusted_precision_scale(lhs_p, lhs_s, rhs_p, rhs_s)`: the precision
      and scale of a result that must hold both operands, and the
      difference `diff` between the two scales. */
  function AdjustedPrecisionScale(lhsP: nat, lhsS: nat, rhsP: nat, rhsS: nat): (r: (nat, nat, nat))
    requires lhsS <= lhsP && rhsS <= rhsP
    ensures var (p, s, diff) := r;
      && s >= lhsS && s >= rhsS && (s == lhsS || s == rhsS)
      && s - lhsS + s - rhsS == diff
      && p - s >= lhsP - lhsS && p - s >= rhsP - rhsS
      && (p - s == lhsP - lhsS || p - s == rhsP - rhsS)
      && s <= p
  {
    var before := if lhsP - lhsS >= rhsP - rhsS then lhsP - lhsS else rhsP - rhsS;
    var (s, diff) := if lhsS > rhsS then (lhsS, lhsS - rhsS) else (rhsS, rhsS - lhsS);
    (before + s, s, diff)
  }

  /** `get_parameters(lhs, rhs)`: the common `(precision, scale)` of two
      decimal types; an `InvalidArgumentError` when they differ; a panic
      (`unreachable!`) when either type is not a decimal. */
  function GetParameters(lhs: DataType, rhs: DataType): (r: Eval<Result<(nat, nat)>>)
    ensures r.Panicked? <==> !lhs.Decimal? || !rhs.Decimal?
    ensures r.Value? && r.get.Ok? <==> lhs.Decimal? && lhs == rhs
    ensures r.Value? && r.get.Ok? ==> r.get.value == (lhs.precision, lhs.scale)
    ensures r.Value? && r.get.Err? ==> r.get.error.InvalidArgumentError?
  {
    match (lhs, rhs)
    case (Decimal(lp, ls), Decimal(rp, rs)) =>
      if lp == rp && ls == rs then Value(Ok((lp, ls)))
      else Value(Err(InvalidArgumentError("Arrays must have the same precision and scale")))
    case _ => Panicked(Unreachable)
  }

  // ---------------------------------------------------------------------
  // Truncating division

  /** `q` is `n / d` rounded toward zero: the remainder is smaller than the
      divisor in magnitude and has the sign of the dividend. */
  ghost predicate IsTruncQuotient(n: int, d: int, q: int)
  {
    var rem := n - q * d;
    Abs(rem) < Abs(d) && (rem == 0 || (rem < 0 <==> n < 0))
  }

  /** Quotient rounded toward zero, as Rust's `/` on signed integers. */
  function TruncDiv(n: int, d: int): (q: int)
    requires d != 0
    ensures IsTruncQuotient(n, d, q)
    ensures Abs(q) <= Abs(n)
  {
    var q0 := Abs(n) / Abs(d);
    TruncDivCorrect(n, d, q0, Abs(n) % Abs(d));
    if (n < 0) != (d < 0) then -(q0 as int) else q0
  }

  /** Rounding the magnitudes' quotient and fixing the sign afterwards
      rounds toward zero. */
  lemma TruncDivCorrect(n: int, d: int, q0: nat, r0: nat)
    requires d != 0 && q0 == Abs(n) / Abs(d) && r0 == Abs(n) % Abs(d)
    ensures IsTruncQuotient(n, d, if (n < 0) != (d < 0) then -(q0 as int) else q0)
    ensures q0 <= Abs(n)
  {
    var b := Abs(d);
    assert Abs(n) == q0 * b + r0 && r0 < b;
    MulAtLeast(q0, b);
    var q: int := if (n < 0) != (d < 0) then -(q0 as int) else q0;
    NegMul(q0, b);
    assert q * d == if n < 0 then -(q0 * b) else q0 * b;
  }

  lemma MulAtLeast(q: nat, b: nat)
    requires b >= 1
    ensures q * b >= q
  {
    assert q * b == q * (b - 1) + q;
  }

  lemma NegMul(x: int, y: int)
    ensures (-x) * y == -(x * y) && x * (-y) == -(x * y)
  {
  }

  lemma AbsMul(x: int, k: int)
    requires k > 0
    ensures Abs(x * k) == Abs(x) * k
  {
    if x < 0 {
      NegMul(x, k);
      assert x * k == -((-x) * k);
    }
  }

  lemma SignMul(x: int, k: int)
    requires k > 0
    ensures (x * k < 0 <==> x < 0) && (x * k == 0 <==> x == 0)
  {
    AbsMul(x, k);
  }

  lemma MulStrict(a: nat, b: nat, k: int)
    requires a < b && k > 0
    ensures a * k < b * k
  {
    assert b * k == a * k + (b - a) * k;
    MulAtLeast(k, b - a);
    assert (b - a) * k == k * (b - a);
  }

  lemma AbsProductGrows(k: int, d: int)
    requires k != 0 && d != 0
    ensures Abs(k * d) >= Abs(d)
  {
    var a: int, b: int := Abs(k), Abs(d);
    MulAtLeast(b, a);
    assert b * a == a * b;
    NegMul(a, b);
    assert k * d == a * b || k * d == -(a * b);
  }

  /** The truncated quotient is the only value with its property. */
  lemma TruncQuotientUnique(n: int, d: int, q1: int, q2: int)
    requires d != 0 && IsTruncQuotient(n, d, q1) && IsTruncQuotient(n, d, q2)
    ensures q1 == q2
  {
    var r1, r2 := n - q1 * d, n - q2 * d;
    if q1 != q2 {
      assert r1 - r2 == (q2 - q1) * d;
      AbsProductGrows(q2 - q1, d);
    }
  }

  /** Multiplying dividend and divisor by the same positive factor leaves
      the truncated quotient unchanged. */
  lemma TruncQuotientScale(n: int, d: int, q: int, k: int)
    requires d != 0 && k > 0 && IsTruncQuotient(n, d, q)
    ensures IsTruncQuotient(n * k, d * k, q)
  {
    var rem := n - q * d;
    ScaledRemainder(n, d, q, k);
    AbsMul(rem, k);
    AbsMul(d, k);
    MulStrict(Abs(rem), Abs(d), k);
    SignMul(rem, k);
    SignMul(n, k);
  }

  lemma ScaledRemainder(n: int, d: int, q: int, k: int)
    ensures n * k - q * (d * k) == (n - q * d) * k
  {
    assert q * (d * k) == (q * d) * k;
    assert (n - q * d) * k == n * k - (q * d) * k;
  }

  /** `i128::checked_div`: `None` when dividing by zero or when the quotient
      overflows (`i128::MIN / -1`), otherwise the quotient rounded toward
      zero. */
  function I128CheckedDiv(n: int, d: int): (r: Option<int>)
    ensures r.None? <==> d == 0 || (n == -I128_MAX - 1 && d == -1)
    ensures r.Some? ==> IsTruncQuotient(n, d, r.value) && Abs(r.value) <= Abs(n)
  {
    if d == 0 || (n == -I128_MAX - 1 && d == -1) then None else Some(TruncDiv(n, d))
  }

  /** Both policies' `saturating_*` clamp: a result whose magnitude exceeds
      `max` becomes `max` or `-max`, on the side it overflowed. */
  function Saturate(res: int, max: int): (r: int)
    requires max >= 0
    ensures -max <= r <= max
    ensures Abs(res) <= max ==> r == res
    ensures Abs(res) > max ==> r == (if res > 0 then max else -max)
  {
    if Abs(res) > max then (if res > 0 then max else -max) else res
  }

  /** The saturated value is the representable value nearest to `res`. */
  lemma SaturateIsNearest(res: int, max: int, y: int)
    requires max >= 0 && -max <= y <= max
    ensures Abs(Saturate(res, max) - res) <= Abs(y - res)
  {
  }

  /** `v` at scale `from` written at the larger scale `to`. */
  function Rescale(v: int, from: nat, to: nat): int
    requires from <= to
  {
    v * Pow10(to - from)
  }

  // ---------------------------------------------------------------------
  // Element-wise drivers

  /** The `&` of two bitmaps of one length. */
  function And(a: seq<bool>, b: seq<bool>): (r: seq<bool>)
    requires |a| == |b|
    ensures |r| == |a| && forall i :: 0 <= i < |a| ==> r[i] == (a[i] && b[i])
  {
    if a == [] then [] else [a[0] && b[0]] + And(a[1..], b[1..])
  }

  /** `combine_validities(lhs, rhs)`: a slot is valid exactly when it is
      valid in both; the result is absent only when both are absent. */
  function CombineValidities(a: Option<seq<bool>>, b: Option<seq<bool>>, ghost n: nat): (r: Option<seq<bool>>)
    requires a.Some? ==> |a.value| == n
    requires b.Some? ==> |b.value| == n
    ensures r.None? <==> a.None? && b.None?
    ensures r.Some? ==> |r.value| == n
    ensures forall i :: 0 <= i < n ==> (ValidAt(r, i) <==> ValidAt(a, i) && ValidAt(b, i))
  {
    match (a, b)
    case (Some(x), Some(y)) => Some(And(x, y))
    case (Some(x), None) => Some(x)
    case (None, Some(y)) => Some(y)
    case (None, None) => None
  }

  /** Apply `op` to every pair of values; the result panics when any
      application panics. */
  function MapValues(ls: seq<int>, rs: seq<int>, op: (int, int) --> Eval<int>): (r: Eval<seq<int>>)
    requires |ls| == |rs|
    requires forall i :: 0 <= i < |ls| ==> op.requires(ls[i], rs[i])
    ensures r.Value? <==> forall i :: 0 <= i < |ls| ==> op(ls[i], rs[i]).Value?
    ensures r.Value? ==> |r.get| == |ls| && forall i :: 0 <= i < |ls| ==> r.get[i] == op(ls[i], rs[i]).get
    ensures r.Panicked? ==> exists i :: 0 <= i < |ls| && op(ls[i], rs[i]) == Panicked(r.reason)
  {
    if ls == [] then Value([])
    else
      match op(ls[0], rs[0])
      case Panicked(why) => Panicked(why)
      case Value(v) =>
        var tail := MapValues(ls[1..], rs[1..], op);
        match tail
        case Panicked(why) =>
          assert forall i :: 1 <= i < |ls| ==> op(ls[i], rs[i]) == op(ls[1..][i - 1], rs[1..][i - 1]);
          Panicked(why)
        case Value(vs) => Value([v] + vs)
  }

  /** `binary(lhs, rhs, data_type, op)`: after checking the lengths, apply
      `op` to every pair of values (nulls included) and combine the
      validities; the output carries `dataType`. */
  function Binary(lhs: PrimitiveArray, rhs: PrimitiveArray, dataType: DataType, op: (int, int) --> Eval<int>)
    : (r: Eval<Result<PrimitiveArray>>)
    requires lhs.Valid() && rhs.Valid()
    requires forall i :: 0 <= i < |lhs.values| && i < |rhs.values| ==> op.requires(lhs.values[i], rhs.values[i])
    ensures |lhs.values| != |rhs.values| <==> r == Value(Err(InvalidArgumentError("Arrays must have the same length")))
    ensures r.Panicked? <==>
      (|lhs.values| == |rhs.values| && exists i :: 0 <= i < |lhs.values| && op(lhs.values[i], rhs.values[i]).Panicked?)
    ensures r.Value? && r.get.Ok? ==>
      var out := r.get.value;
      && out.Valid() && out.dataType == dataType && |out.values| == |lhs.values| == |rhs.values|
      && (forall i :: 0 <= i < |lhs.values| ==> op(lhs.values[i], rhs.values[i]) == Value(out.values[i]))
      && (forall i :: 0 <= i < |lhs.values| ==> (out.IsNull(i) <==> lhs.IsNull(i) || rhs.IsNull(i)))
  {
    if |lhs.values| != |rhs.values| then Value(Err(InvalidArgumentError("Arrays must have the same length")))
    else
      match MapValues(lhs.values, rhs.values, op)
      case Panicked(why) => Panicked(why)
      case Value(vs) =>
        Value(Ok(PrimitiveArray(dataType, vs, CombineValidities(lhs.validity, rhs.validity, |vs|))))
  }

  /** `binary_checked(lhs, rhs, data_type, op)`: after checking the lengths,
      apply `op` to every pair; a `None` becomes a null slot holding `0`.
      The validity is always present: the input validities combined with
      the `Some`-ness of every result. */
  function BinaryChecked(lhs: PrimitiveArray, rhs: PrimitiveArray, dataType: DataType, op: (int, int) --> Option<int>)
    : (r: Result<PrimitiveArray>)
    requires lhs.Valid() && rhs.Valid()
    requires forall i :: 0 <= i < |lhs.values| && i < |rhs.values| ==> op.requires(lhs.values[i], rhs.values[i])
    ensures |lhs.values| != |rhs.values| <==> r == Err(InvalidArgumentError("Arrays must have the same length"))
    ensures r.Ok? ==>
      var out := r.value;
      && out.Valid() && out.dataType == dataType && out.validity.Some? && |out.values| == |lhs.values|
      && forall i :: 0 <= i < |lhs.values| ==>
           && (out.IsNull(i) <==> lhs.IsNull(i) || rhs.IsNull(i) || op(lhs.values[i], rhs.values[i]).None?)
           && out.values[i] == match op(lhs.values[i], rhs.values[i]) case Some(v) => v case None => 0
  {
    if |lhs.values| != |rhs.values| then Err(InvalidArgumentError("Arrays must have the same length"))
    else
      var n := |lhs.values|;
      var results := seq(n, i requires 0 <= i < n => op(lhs.values[i], rhs.values[i]));
      var values := seq(n, i requires 0 <= i < n => match results[i] case Some(v) => v case None => 0);
      var bitmap := seq(n, i requires 0 <= i < n => results[i].Some?);
      var validity := CombineValidities(CombineValidities(lhs.validity, rhs.validity, n), Some(bitmap), n);
      Ok(PrimitiveArray(dataType, values, validity))
  }

  // ---------------------------------------------------------------------
  // Precision growth of the adaptive kernels

  function Max(a: nat, b: nat): nat { if a >= b then a else b }

  /** The most digits any value of `vs` has (`0` for no values). */
  function MaxDigits(vs: seq<int>): (d: nat)
    ensures forall i :: 0 <= i < |vs| ==> NumberDigits(vs[i]) <= d
    ensures vs != [] ==> exists i :: 0 <= i < |vs| && NumberDigits(vs[i]) == d
  {
    if vs == [] then 0
    else
      var init := vs[..|vs| - 1];
      assert forall i :: 0 <= i < |init| ==> init[i] == vs[i];
      Max(MaxDigits(init), NumberDigits(vs[|vs| - 1]))
  }

  /** The precision an adaptive kernel ends with, `Max(p0, MaxDigits(vs))`,
      is the least precision at least `p0` whose `max_value` bounds every
      value. */
  lemma GrownPrecisionIsLeast(p0: nat, vs: seq<int>)
    ensures forall i :: 0 <= i < |vs| ==> Abs(vs[i]) <= MaxValue(Max(p0, MaxDigits(vs)))
    ensures forall q: nat :: q >= p0 && (forall i :: 0 <= i < |vs| ==> Abs(vs[i]) <= MaxValue(q))
              ==> q >= Max(p0, MaxDigits(vs))
  {
    var p := Max(p0, MaxDigits(vs));
    forall i | 0 <= i < |vs| ensures Abs(vs[i]) <= MaxValue(p) {
      FitsIffDigits(Abs(vs[i]), p);
    }
    forall q: nat | q >= p0 && (forall i :: 0 <= i < |vs| ==> Abs(vs[i]) <= MaxValue(q))
      ensures q >= p
    {
      if vs != [] {
        var i :| 0 <= i < |vs| && NumberDigits(vs[i]) == MaxDigits(vs);
        FitsIffDigits(Abs(vs[i]), q);
      }
    }
  }

  /** One step of the adaptive loop: `if res.abs() > max { res_p =
      number_digits(res) }` keeps `res_p` equal to the grown precision of the
      values seen so far. */
  lemma GrowStep(p0: nat, seen: seq<int>, res: int)
    ensures var p := Max(p0, MaxDigits(seen));
      Max(p0, MaxDigits(seen + [res])) == if Abs(res) > MaxValue(p) then NumberDigits(res) else p
  {
    var p := Max(p0, MaxDigits(seen));
    assert (seen + [res])[..|seen|] == seen;
    FitsIffDigits(Abs(res), p);
  }
}
