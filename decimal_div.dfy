/** Division of decimal arrays (`compute::arithmetics::decimal::div`): the
    dividend is first scaled up by `10^scale` so that the quotient keeps the
    scale, then divided with `i128::checked_div`, which rounds toward zero.
    The four policies differ in what a zero divisor or an oversized quotient
    does: `div` panics, `saturating_div` gives `0` or the bound,
    `checked_div` gives null; `adaptive_div` panics on zero divisors and grows
    the precision instead of overflowing. */
module DecimalDiv {
  import opened Common
  import opened Decimal

  // ---------------------------------------------------------------------
  // Per-element operations

  /** The closure of `div`. */
  function DivOp(precision: nat, scale: nat, a: int, b: int): (r: Eval<int>)
    requires Fits(a * Pow10(scale))
    ensures r == Panicked(DivisionByZero) <==> b == 0
    ensures r.Value? ==> IsTruncQuotient(a * Pow10(scale), b, r.get) && Abs(r.get) <= MaxValue(precision)
    ensures b != 0 ==>
      (r.Value? <==> Abs(TruncDiv(a * Pow10(scale), b)) <= MaxValue(precision))
    ensures r.Panicked? && b != 0 ==> r.reason == MultiplicationOverflow(precision)
  {
    var numeral := a * Pow10(scale);
    match I128CheckedDiv(numeral, b)
    case None => Panicked(DivisionByZero)
    case Some(res) =>
      if Abs(res) <= MaxValue(precision) then Value(res) else Panicked(MultiplicationOverflow(precision))
  }

  /** The closure of `saturating_div`: a zero divisor gives `0`, an
      oversized quotient the bound on its side. */
  function SaturatingDivOp(precision: nat, scale: nat, a: int, b: int): (r: int)
    requires Fits(a * Pow10(scale))
    ensures -MaxValue(precision) <= r <= MaxValue(precision)
    ensures b == 0 ==> r == 0
    ensures b != 0 ==> r == Saturate(TruncDiv(a * Pow10(scale), b), MaxValue(precision))
  {
    var numeral := a * Pow10(scale);
    match I128CheckedDiv(numeral, b)
    case Some(res) => Saturate(res, MaxValue(precision))
    case None => 0
  }

  /** The closure of `checked_div`: null for a zero divisor or an oversized
      quotient. */
  function CheckedDivOp(precision: nat, scale: nat, a: int, b: int): (r: Option<int>)
    requires Fits(a * Pow10(scale))
    ensures r.None? <==> b == 0 || Abs(TruncDiv(a * Pow10(scale), b)) > MaxValue(precision)
    ensures r.Some? ==> IsTruncQuotient(a * Pow10(scale), b, r.value) && Abs(r.value) <= MaxValue(precision)
  {
    var numeral := a * Pow10(scale);
    match I128CheckedDiv(numeral, b)
    case Some(res) => if Abs(res) > MaxValue(precision) then None else Some(res)
    case None => None
  }

  /** Where `checked_div` yields a quotient, `div` and `saturating_div` yield
      the same one; where it yields null, `div` panics and `saturating_div`
      gives `0` for a zero divisor or the bound on the quotient's side. */
  lemma DivPoliciesAgree(precision: nat, scale: nat, a: int, b: int)
    requires Fits(a * Pow10(scale))
    ensures CheckedDivOp(precision, scale, a, b).Some? <==> DivOp(precision, scale, a, b).Value?
    ensures CheckedDivOp(precision, scale, a, b).Some? ==>
      && DivOp(precision, scale, a, b).get == CheckedDivOp(precision, scale, a, b).value
      && SaturatingDivOp(precision, scale, a, b) == CheckedDivOp(precision, scale, a, b).value
    ensures CheckedDivOp(precision, scale, a, b).None? && b != 0 ==>
      var m := MaxValue(precision);
      SaturatingDivOp(precision, scale, a, b) == m || SaturatingDivOp(precision, scale, a, b) == -m
  {
  }

  /** A zero divisor makes every policy but `saturating_div` refuse, and
      `saturating_div` give `0`. */
  lemma ZeroDivisor(precision: nat, scale: nat, a: int)
    requires Fits(a * Pow10(scale))
    ensures DivOp(precision, scale, a, 0) == Panicked(DivisionByZero)
    ensures CheckedDivOp(precision, scale, a, 0).None?
    ensures SaturatingDivOp(precision, scale, a, 0) == 0
  {
  }

  // ---------------------------------------------------------------------
  // Array kernels

  /** The scale is one `10i128.pow` can raise, and no dividend scaled up by
      it overflows `i128`. */
  predicate DivFits(lhs: PrimitiveArray)
  {
    lhs.dataType.Decimal? ==>
      && lhs.dataType.scale <= 38
      && forall i :: 0 <= i < |lhs.values| ==> Fits(lhs.values[i] * Pow10(lhs.dataType.scale))
  }

  /** `div(lhs, rhs)`. A null divisor slot holds `0`, so it panics like a
      zero divisor. */
  function Div(lhs: PrimitiveArray, rhs: PrimitiveArray): (r: Eval<Result<PrimitiveArray>>)
    requires lhs.Valid() && rhs.Valid() && DivFits(lhs)
    ensures !lhs.dataType.Decimal? || !rhs.dataType.Decimal? ==> r == Panicked(Unreachable)
    ensures lhs.dataType.Decimal? && rhs.dataType.Decimal? && lhs.dataType != rhs.dataType ==>
      r.Value? && r.get.Err? && r.get.error.InvalidArgumentError?
    ensures lhs.dataType.Decimal? && lhs.dataType == rhs.dataType && |lhs.values| != |rhs.values| ==>
      r == Value(Err(InvalidArgumentError("Arrays must have the same length")))
    ensures lhs.dataType.Decimal? && lhs.dataType == rhs.dataType && |lhs.values| == |rhs.values| ==>
      && (r.Panicked? <==>
           exists i :: 0 <= i < |lhs.values| &&
             (rhs.values[i] == 0 ||
              Abs(TruncDiv(lhs.values[i] * Pow10(lhs.dataType.scale), rhs.values[i])) > MaxValue(lhs.dataType.precision)))
      && (r.Value? ==> r.get.Ok?)
    ensures r.Value? && r.get.Ok? ==>
      var out := r.get.value;
      && lhs.dataType.Decimal? && out.dataType == lhs.dataType == rhs.dataType
      && out.Valid() && |out.values| == |lhs.values| == |rhs.values|
      && (forall i :: 0 <= i < |out.values| ==>
            && IsTruncQuotient(lhs.values[i] * Pow10(lhs.dataType.scale), rhs.values[i], out.values[i])
            && Abs(out.values[i]) <= MaxValue(lhs.dataType.precision))
      && (forall i :: 0 <= i < |out.values| ==> (out.IsNull(i) <==> lhs.IsNull(i) || rhs.IsNull(i)))
  {
    match GetParameters(lhs.dataType, rhs.dataType)
    case Panicked(why) => Panicked(why)
    case Value(Err(e)) => Value(Err(e))
    case Value(Ok((precision, scale))) =>
      Binary(lhs, rhs, lhs.dataType, (a, b) requires Fits(a * Pow10(scale)) => DivOp(precision, scale, a, b))
  }

  /** `saturating_div(lhs, rhs)`. */
  function SaturatingDiv(lhs: PrimitiveArray, rhs: PrimitiveArray): (r: Eval<Result<PrimitiveArray>>)
    requires lhs.Valid() && rhs.Valid() && DivFits(lhs)
    ensures r.Panicked? <==> !lhs.dataType.Decimal? || !rhs.dataType.Decimal?
    ensures r.Value? && r.get.Ok? ==>
      var out := r.get.value;
      && lhs.dataType.Decimal? && out.dataType == lhs.dataType == rhs.dataType
      && out.Valid() && |out.values| == |lhs.values| == |rhs.values|
      && (forall i :: 0 <= i < |out.values| ==>
            out.values[i] == SaturatingDivOp(lhs.dataType.precision, lhs.dataType.scale, lhs.values[i], rhs.values[i]))
      && (forall i :: 0 <= i < |out.values| ==> (out.IsNull(i) <==> lhs.IsNull(i) || rhs.IsNull(i)))
    ensures lhs.dataType.Decimal? && lhs.dataType == rhs.dataType ==>
      (r.Value? && r.get.Ok? <==> |lhs.values| == |rhs.values|)
    ensures lhs.dataType.Decimal? && rhs.dataType.Decimal? && lhs.dataType != rhs.dataType ==>
      r.Value? && r.get.Err? && r.get.error.InvalidArgumentError?
    ensures lhs.dataType.Decimal? && lhs.dataType == rhs.dataType && |lhs.values| != |rhs.values| ==>
      r == Value(Err(InvalidArgumentError("Arrays must have the same length")))
  {
    match GetParameters(lhs.dataType, rhs.dataType)
    case Panicked(why) => Panicked(why)
    case Value(Err(e)) => Value(Err(e))
    case Value(Ok((precision, scale))) =>
      Binary(lhs, rhs, lhs.dataType,
        (a, b) requires Fits(a * Pow10(scale)) => Value(SaturatingDivOp(precision, scale, a, b)))
  }

  /** `checked_div(lhs, rhs)`: a zero divisor or an oversized quotient
      becomes a null slot. */
  function CheckedDiv(lhs: PrimitiveArray, rhs: PrimitiveArray): (r: Eval<Result<PrimitiveArray>>)
    requires lhs.Valid() && rhs.Valid() && DivFits(lhs)
    ensures r.Panicked? <==> !lhs.dataType.Decimal? || !rhs.dataType.Decimal?
    ensures r.Value? && r.get.Ok? ==>
      var out := r.get.value;
      var s := lhs.dataType.scale;
      var max := MaxValue(lhs.dataType.precision);
      && lhs.dataType.Decimal? && out.dataType == lhs.dataType == rhs.dataType
      && out.Valid() && |out.values| == |lhs.values| == |rhs.values|
      && forall i :: 0 <= i < |out.values| ==>
           && (out.IsNull(i) <==>
                 lhs.IsNull(i) || rhs.IsNull(i) || rhs.values[i] == 0 ||
                 Abs(TruncDiv(lhs.values[i] * Pow10(s), rhs.values[i])) > max)
           && (!out.IsNull(i) ==> IsTruncQuotient(lhs.values[i] * Pow10(s), rhs.values[i], out.values[i]))
    ensures lhs.dataType.Decimal? && lhs.dataType == rhs.dataType ==>
      (r.Value? && r.get.Ok? <==> |lhs.values| == |rhs.values|)
    ensures lhs.dataType.Decimal? && rhs.dataType.Decimal? && lhs.dataType != rhs.dataType ==>
      r.Value? && r.get.Err? && r.get.error.InvalidArgumentError?
    ensures lhs.dataType.Decimal? && lhs.dataType == rhs.dataType && |lhs.values| != |rhs.values| ==>
      r == Value(Err(InvalidArgumentError("Arrays must have the same length")))
  {
    match GetParameters(lhs.dataType, rhs.dataType)
    case Panicked(why) => Panicked(why)
    case Value(Err(e)) => Value(Err(e))
    case Value(Ok((precision, scale))) =>
      Value(BinaryChecked(lhs, rhs, lhs.dataType,
        (a, b) requires Fits(a * Pow10(scale)) => CheckedDivOp(precision, scale, a, b)))
  }

  // ---------------------------------------------------------------------
  // Adaptive division

  /** `q` is the quotient of the decimal values `l / 10^lhsS` and
      `r / 10^rhsS`, written at scale `resS` and rounded toward zero. */
  ghost predicate IsScaledQuotient(l: int, lhsS: nat, r: int, rhsS: nat, resS: nat, q: int)
  {
    IsTruncQuotient(l * Pow10(rhsS + resS), r * Pow10(lhsS), q)
  }

  /** The dividend scaled by `10^res_s`, and the operand that is shifted,
      stay within `i128`. */
  predicate AdaptiveDivFits(lhs: PrimitiveArray, rhs: PrimitiveArray)
  {
    lhs.dataType.Decimal? && rhs.dataType.Decimal? ==>
      var (ls, rs) := (lhs.dataType.scale, rhs.dataType.scale);
      var s := Max(ls, rs);
      var shift := Pow10(if ls > rs then ls - rs else rs - ls);
      forall i :: 0 <= i < |lhs.values| && i < |rhs.values| ==>
        && Fits(lhs.values[i] * Pow10(s))
        && (if ls > rs then Fits(rhs.values[i] * shift) else Fits(lhs.values[i] * Pow10(s) * shift))
  }

  /** `adaptive_div(lhs, rhs)`: the quotients are taken at the larger scale;
      the precision starts from `adjusted_precision_scale` and grows to the
      digits of any quotient that exceeds it; a zero divisor panics. */
  method AdaptiveDiv(lhs: PrimitiveArray, rhs: PrimitiveArray) returns (r: Eval<Result<PrimitiveArray>>)
    requires lhs.Valid() && rhs.Valid() && AdaptiveDivFits(lhs, rhs)
    requires lhs.dataType.Decimal? && rhs.dataType.Decimal? ==>
      WellFormedDecimal(lhs.dataType) && WellFormedDecimal(rhs.dataType)
    ensures |lhs.values| != |rhs.values| ==> r == Value(Err(InvalidArgumentError("Arrays must have the same length")))
    ensures |lhs.values| == |rhs.values| && !(lhs.dataType.Decimal? && rhs.dataType.Decimal?) ==>
      r == Value(Err(InvalidArgumentError("Incorrect data type for the array")))
    ensures r.Panicked? <==>
      && |lhs.values| == |rhs.values| && lhs.dataType.Decimal? && rhs.dataType.Decimal?
      && exists i :: 0 <= i < |rhs.values| && rhs.values[i] == 0
    ensures r.Panicked? ==> r.reason == DivisionByZero
    ensures |lhs.values| == |rhs.values| && lhs.dataType.Decimal? && rhs.dataType.Decimal? && r.Value? ==>
      && r.get.Ok?
      && var (p, s, _) := AdjustedPrecisionScale(lhs.dataType.precision, lhs.dataType.scale,
                                                 rhs.dataType.precision, rhs.dataType.scale);
         var out := r.get.value;
         && |out.values| == |lhs.values|
         && (forall i :: 0 <= i < |out.values| ==>
               IsScaledQuotient(lhs.values[i], lhs.dataType.scale, rhs.values[i], rhs.dataType.scale, s, out.values[i]))
         && out.dataType == Decimal(Max(p, MaxDigits(out.values)), s)
         && (forall i :: 0 <= i < |out.values| ==> Abs(out.values[i]) <= MaxValue(out.dataType.precision))
         && out.Valid()
         && (forall i :: 0 <= i < |out.values| ==> (out.IsNull(i) <==> lhs.IsNull(i) || rhs.IsNull(i)))
  {
    if |lhs.values| != |rhs.values| {
      return Value(Err(InvalidArgumentError("Arrays must have the same length")));
    }
    if !(lhs.dataType.Decimal? && rhs.dataType.Decimal?) {
      return Value(Err(InvalidArgumentError("Incorrect data type for the array")));
    }
    var lhsS, rhsS := lhs.dataType.scale, rhs.dataType.scale;
    var (p0, resS, diff) := AdjustedPrecisionScale(lhs.dataType.precision, lhsS, rhs.dataType.precision, rhsS);
    var shift := Pow10(diff);
    var shift1 := Pow10(resS);
    var quotients := RescaledQuotients(lhs.values, rhs.values, lhsS, rhsS, resS, shift, shift1, p0);
    match quotients
    case Panicked(why) =>
      r := Panicked(why);
    case Value((values, resP)) =>
      GrownPrecisionIsLeast(p0, values);
      var validity := CombineValidities(lhs.validity, rhs.validity, |values|);
      r := Value(Ok(PrimitiveArray(Decimal(resP, resS), values, validity)));
  }

  /** The iteration of `adaptive_div`: each quotient is taken at scale
      `resS` (`shift1 = 10^resS` scales the dividend, `shift` the operand
      with the smaller scale); `res_p` / `max` grow whenever a quotient
      exceeds `max`; the first zero divisor panics. */
  method RescaledQuotients(ls: seq<int>, rs: seq<int>, lhsS: nat, rhsS: nat, resS: nat, shift: int, shift1: int, p0: nat)
    returns (r: Eval<(seq<int>, nat)>)
    requires |ls| == |rs|
    requires resS == Max(lhsS, rhsS)
    requires shift == Pow10(if lhsS > rhsS then lhsS - rhsS else rhsS - lhsS) && shift1 == Pow10(resS)
    requires forall j :: 0 <= j < |ls| ==> Fits(if lhsS > rhsS then ls[j] * shift1 else ls[j] * shift1 * shift)
    ensures r.Panicked? <==> exists i :: 0 <= i < |rs| && rs[i] == 0
    ensures r.Panicked? ==> r.reason == DivisionByZero
    ensures r.Value? ==>
      var (values, resP) := r.get;
      && |values| == |ls|
      && (forall j :: 0 <= j < |ls| ==> IsScaledQuotient(ls[j], lhsS, rs[j], rhsS, resS, values[j]))
      && resP == Max(p0, MaxDigits(values))
  {
    var resP := p0;
    var max := MaxValue(resP);
    var values := [];
    var i := 0;
    while i < |ls|
      invariant 0 <= i <= |ls| && |values| == i
      invariant forall j :: 0 <= j < i ==> rs[j] != 0
      invariant forall j :: 0 <= j < i ==> IsScaledQuotient(ls[j], lhsS, rs[j], rhsS, resS, values[j])
      invariant resP == Max(p0, MaxDigits(values))
      invariant max == MaxValue(resP)
    {
      var res := ShiftedDiv(ls[i], rs[i], lhsS, rhsS, resS, shift, shift1);
      if res.None? {
        assert rs[i] == 0;
        return Panicked(DivisionByZero);
      }
      GrowStep(p0, values, res.value);
      if Abs(res.value) > max {
        resP := NumberDigits(res.value);
        max := MaxValue(resP);
      }
      QuotientsExtend(ls, rs, lhsS, rhsS, resS, values, res.value);
      values := values + [res.value];
      i := i + 1;
    }
    r := Value((values, resP));
  }

  /** Appending the next quotient keeps every earlier one in place. */
  lemma QuotientsExtend(ls: seq<int>, rs: seq<int>, lhsS: nat, rhsS: nat, resS: nat, values: seq<int>, v: int)
    requires |values| < |ls| == |rs|
    requires forall j :: 0 <= j < |values| ==> IsScaledQuotient(ls[j], lhsS, rs[j], rhsS, resS, values[j])
    requires IsScaledQuotient(ls[|values|], lhsS, rs[|values|], rhsS, resS, v)
    ensures forall j :: 0 <= j < |values| + 1 ==> IsScaledQuotient(ls[j], lhsS, rs[j], rhsS, resS, (values + [v])[j])
  {
    forall j | 0 <= j < |values| + 1
      ensures IsScaledQuotient(ls[j], lhsS, rs[j], rhsS, resS, (values + [v])[j])
    {
      if j < |values| {
        assert (values + [v])[j] == values[j];
      }
    }
  }

  /** The division inside the closure of `adaptive_div`, before its
      `expect`: `None` exactly for a zero divisor, otherwise the quotient of
      the two decimal values at scale `resS`. */
  function ShiftedDiv(l: int, d: int, lhsS: nat, rhsS: nat, resS: nat, shift: int, shift1: int): (r: Option<int>)
    requires resS == Max(lhsS, rhsS)
    requires shift == Pow10(if lhsS > rhsS then lhsS - rhsS else rhsS - lhsS) && shift1 == Pow10(resS)
    requires Fits(if lhsS > rhsS then l * shift1 else l * shift1 * shift)
    ensures r.None? <==> d == 0
    ensures r.Some? ==> IsScaledQuotient(l, lhsS, d, rhsS, resS, r.value)
  {
    var numeral := l * shift1;
    if lhsS > rhsS then
      ShiftedDivisorIsZero(d, shift);
      var res := I128CheckedDiv(numeral, d * shift);
      if res.Some? then
        ShiftedQuotientIsScaled(l, d, lhsS, rhsS, resS, shift, shift1, res.value);
        res
      else res
    else
      var res := I128CheckedDiv(numeral * shift, d);
      if res.Some? then
        ShiftedQuotientIsScaled(l, d, lhsS, rhsS, resS, shift, shift1, res.value);
        res
      else res
  }

  lemma ShiftedDivisorIsZero(d: int, shift: int)
    requires shift >= 1
    ensures d * shift == 0 <==> d == 0
  {
    SignMul(d, shift);
  }

  /** Shifting the dividend or the divisor, as `adaptive_div` does, yields
      the quotient of the two decimal values at the larger scale. */
  lemma ShiftedQuotientIsScaled(l: int, d: int, lhsS: nat, rhsS: nat, resS: nat, shift: int, shift1: int, q: int)
    requires resS == Max(lhsS, rhsS)
    requires shift == Pow10(if lhsS > rhsS then lhsS - rhsS else rhsS - lhsS) && shift1 == Pow10(resS)
    requires if lhsS > rhsS then d * shift != 0 && IsTruncQuotient(l * shift1, d * shift, q)
             else d != 0 && IsTruncQuotient(l * shift1 * shift, d, q)
    ensures IsScaledQuotient(l, lhsS, d, rhsS, resS, q)
  {
    if lhsS > rhsS {
      var k := Pow10(rhsS);
      TruncQuotientScale(l * shift1, d * shift, q, k);
      Pow10Add(rhsS, resS);
      ScaleBy(l, shift1, k, Pow10(rhsS + resS));
      Pow10Add(lhsS - rhsS, rhsS);
      ScaleBy(d, shift, k, Pow10(lhsS));
    } else {
      var k := Pow10(lhsS);
      TruncQuotientScale(l * shift1 * shift, d, q, k);
      Pow10Add(rhsS - lhsS, lhsS);
      ScaleBy(l * shift1, shift, k, Pow10(rhsS));
      Pow10Add(rhsS, resS);
      ScaleBy(l, shift1, Pow10(rhsS), Pow10(rhsS + resS));
    }
  }

  /** Multiplying by two factors is multiplying by their product. */
  lemma ScaleBy(x: int, a: int, b: int, c: int)
    requires a * b == c
    ensures x * a * b == x * c
  {
    assert x * a * b == x * (a * b);
  }

  // ---------------------------------------------------------------------
  // The documented examples

  /** `[1.00, 4.00, 6.00] / [1.00, 2.00, 2.00]` at `Decimal(5, 2)` is
      `[1.00, 2.00, 3.00]`. */
  lemma DivExample(a: PrimitiveArray, b: PrimitiveArray)
    requires a == PrimitiveArray(Decimal(5, 2), [100, 400, 600], None)
    requires b == PrimitiveArray(Decimal(5, 2), [100, 200, 200], None)
    ensures var r := Div(a, b);
      && r.Value? && r.get.Ok? && r.get.value.dataType == Decimal(5, 2)
      && Cells(r.get.value) == [Some(100), Some(200), Some(300)]
  {
    DecimalFiveTwo();
    assert GetParameters(a.dataType, b.dataType) == Value(Ok((5, 2)));
    QuotientsOfExample();
    var r := Div(a, b);
    assert !r.Panicked?;
    var out := r.get.value;
    TruncQuotientUnique(10000, 100, out.values[0], 100);
    TruncQuotientUnique(40000, 200, out.values[1], 200);
    TruncQuotientUnique(60000, 200, out.values[2], 300);
  }

  lemma QuotientsOfExample()
    ensures TruncDiv(10000, 100) == 100 && TruncDiv(40000, 200) == 200 && TruncDiv(60000, 200) == 300
  {
    TruncQuotientUnique(10000, 100, TruncDiv(10000, 100), 100);
    TruncQuotientUnique(40000, 200, TruncDiv(40000, 200), 200);
    TruncQuotientUnique(60000, 200, TruncDiv(60000, 200), 300);
  }

  /** `[999.99, 4.00, 6.00] / [0.01, 2.00, 2.00]` at `Decimal(5, 2)`
      saturates the first slot to `999.99`. */
  lemma SaturatingDivExample(a: PrimitiveArray, b: PrimitiveArray)
    requires a == PrimitiveArray(Decimal(5, 2), [99999, 400, 600], None)
    requires b == PrimitiveArray(Decimal(5, 2), [1, 200, 200], None)
    ensures var r := SaturatingDiv(a, b);
      && r.Value? && r.get.Ok? && r.get.value.dataType == Decimal(5, 2)
      && Cells(r.get.value) == [Some(99999), Some(200), Some(300)]
  {
    DecimalFiveTwo();
    assert GetParameters(a.dataType, b.dataType) == Value(Ok((5, 2)));
    var out := SaturatingDiv(a, b).get.value;
    TruncQuotientUnique(9999900, 1, TruncDiv(9999900, 1), 9999900);
    TruncQuotientUnique(40000, 200, TruncDiv(40000, 200), 200);
    TruncQuotientUnique(60000, 200, TruncDiv(60000, 200), 300);
  }

  /** `[1.00, 4.00, 6.00] / [0.00, null, 2.00]` at `Decimal(5, 2)` is
      `[null, null, 3.00]`: the zero divisor and the null slot (which stores
      `0`) both give null. */
  lemma CheckedDivExample(a: PrimitiveArray, b: PrimitiveArray)
    requires a == PrimitiveArray(Decimal(5, 2), [100, 400, 600], None)
    requires b == PrimitiveArray(Decimal(5, 2), [0, 0, 200], Some([true, false, true]))
    ensures var r := CheckedDiv(a, b);
      && r.Value? && r.get.Ok? && r.get.value.dataType == Decimal(5, 2)
      && Cells(r.get.value) == [None, None, Some(300)]
  {
    DecimalFiveTwo();
    assert GetParameters(a.dataType, b.dataType) == Value(Ok((5, 2)));
    var out := CheckedDiv(a, b).get.value;
    TruncQuotientUnique(60000, 200, TruncDiv(60000, 200), 300);
    assert out.IsNull(0) && out.IsNull(1) && !out.IsNull(2);
    TruncQuotientUnique(60000, 200, out.values[2], 300);
  }

  /** The same division under `div` panics, although the zero sits in a null
      slot of the divisor. */
  lemma DivPanicsOnNullDivisor(a: PrimitiveArray, b: PrimitiveArray)
    requires a == PrimitiveArray(Decimal(5, 2), [100, 400, 600], None)
    requires b == PrimitiveArray(Decimal(5, 2), [1, 0, 200], Some([true, false, true]))
    ensures Div(a, b).Panicked?
  {
    assert b.values[1] == 0;
  }

  /** `1000.00 / 10.0000`, at `Decimal(7, 2)` and `Decimal(6, 4)`, is
      `100.0000` at `Decimal(9, 4)`. */
  method AdaptiveDivExample() returns (r: Eval<Result<PrimitiveArray>>)
    ensures r.Value? && r.get.Ok? && r.get.value.dataType == Decimal(9, 4) && r.get.value.Valid()
    ensures Cells(r.get.value) == [Some(1000000)]
  {
    var a := PrimitiveArray(Decimal(7, 2), [100000], None);
    var b := PrimitiveArray(Decimal(6, 4), [100000], None);
    Pow10Add(4, 2);
    Pow10Add(4, 4);
    assert Pow10(4) == 10000 && Pow10(2) == 100;
    assert AdaptiveDivFits(a, b);
    r := AdaptiveDiv(a, b);
    var out := r.get.value;
    TruncQuotientUnique(10000000000000, 10000000, out.values[0], 1000000);
    SevenDigits();
    assert MaxDigits(out.values) == 7;
  }
}
