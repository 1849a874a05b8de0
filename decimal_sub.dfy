/** Subtraction of decimal arrays (`compute::arithmetics::decimal::sub`):
    the four overflow policies. `sub`, `saturating_sub` and `checked_sub`
    need equal precision and scale and apply a per-element closure through
    `binary` / `binary_checked`; `adaptive_sub` rescales the operand with the
    smaller scale and grows the result precision while it iterates. */
module DecimalSub {
  import opened Common
  import opened Decimal

  // ---------------------------------------------------------------------
  // Per-element operations

  /** The closure of `sub`: the difference, or a panic when its magnitude
      exceeds `max_value(precision)`. */
  function SubOp(precision: nat, a: int, b: int): (r: Eval<int>)
    requires Fits(a - b)
    ensures r.Value? <==> Abs(a - b) <= MaxValue(precision)
    ensures r.Value? ==> r.get + b == a
    ensures r.Panicked? ==> r.reason == SubtractOverflow(precision)
  {
    var res := a - b;
    if Abs(res) <= MaxValue(precision) then Value(res) else Panicked(SubtractOverflow(precision))
  }

  /** The closure of `saturating_sub`: always within `[-max, max]`, equal to
      the difference when that fits. */
  function SaturatingSubOp(precision: nat, a: int, b: int): (r: int)
    requires Fits(a - b)
    ensures -MaxValue(precision) <= r <= MaxValue(precision)
    ensures Abs(a - b) <= MaxValue(precision) ==> r + b == a
  {
    Saturate(a - b, MaxValue(precision))
  }

  /** The closure of `checked_sub`: `None` exactly when the difference does
      not fit the precision. */
  function CheckedSubOp(precision: nat, a: int, b: int): (r: Option<int>)
    requires Fits(a - b)
    ensures r.None? <==> Abs(a - b) > MaxValue(precision)
    ensures r.Some? ==> r.value + b == a
  {
    var res := a - b;
    if Abs(res) > MaxValue(precision) then None else Some(res)
  }

  /** The three policies agree wherever the difference fits; where it does
      not, `sub` panics, `checked_sub` gives null and `saturating_sub` gives
      the bound on the side of the overflow. */
  lemma SubPoliciesAgree(precision: nat, a: int, b: int)
    requires Fits(a - b)
    ensures SubOp(precision, a, b).Value? <==> CheckedSubOp(precision, a, b).Some?
    ensures CheckedSubOp(precision, a, b).Some? ==>
      SubOp(precision, a, b).get == CheckedSubOp(precision, a, b).value == SaturatingSubOp(precision, a, b)
    ensures CheckedSubOp(precision, a, b).None? ==>
      SaturatingSubOp(precision, a, b) == if a > b then MaxValue(precision) else -MaxValue(precision)
  {
  }

  // ---------------------------------------------------------------------
  // Array kernels

  /** No difference of two aligned values overflows `i128`. */
  predicate SubFits(lhs: PrimitiveArray, rhs: PrimitiveArray)
  {
    forall i :: 0 <= i < |lhs.values| && i < |rhs.values| ==> Fits(lhs.values[i] - rhs.values[i])
  }

  /** `sub(lhs, rhs)`. */
  function Sub(lhs: PrimitiveArray, rhs: PrimitiveArray): (r: Eval<Result<PrimitiveArray>>)
    requires lhs.Valid() && rhs.Valid() && SubFits(lhs, rhs)
    ensures !lhs.dataType.Decimal? || !rhs.dataType.Decimal? ==> r == Panicked(Unreachable)
    ensures lhs.dataType.Decimal? && rhs.dataType.Decimal? && lhs.dataType != rhs.dataType ==>
      r.Value? && r.get.Err? && r.get.error.InvalidArgumentError?
    ensures lhs.dataType.Decimal? && lhs.dataType == rhs.dataType && |lhs.values| != |rhs.values| ==>
      r == Value(Err(InvalidArgumentError("Arrays must have the same length")))
    ensures lhs.dataType.Decimal? && lhs.dataType == rhs.dataType && |lhs.values| == |rhs.values| ==>
      && (r.Panicked? <==>
           exists i :: 0 <= i < |lhs.values| && Abs(lhs.values[i] - rhs.values[i]) > MaxValue(lhs.dataType.precision))
      && (r.Value? ==> r.get.Ok?)
    ensures r.Value? && r.get.Ok? ==>
      var out := r.get.value;
      && lhs.dataType.Decimal? && out.dataType == lhs.dataType == rhs.dataType
      && out.Valid() && |out.values| == |lhs.values| == |rhs.values|
      && (forall i :: 0 <= i < |out.values| ==>
            out.values[i] + rhs.values[i] == lhs.values[i] && Abs(out.values[i]) <= MaxValue(lhs.dataType.precision))
      && (forall i :: 0 <= i < |out.values| ==> (out.IsNull(i) <==> lhs.IsNull(i) || rhs.IsNull(i)))
  {
    match GetParameters(lhs.dataType, rhs.dataType)
    case Panicked(why) => Panicked(why)
    case Value(Err(e)) => Value(Err(e))
    case Value(Ok((precision, _))) =>
      Binary(lhs, rhs, lhs.dataType, (a, b) requires Fits(a - b) => SubOp(precision, a, b))
  }

  /** `saturating_sub(lhs, rhs)`. */
  function SaturatingSub(lhs: PrimitiveArray, rhs: PrimitiveArray): (r: Eval<Result<PrimitiveArray>>)
    requires lhs.Valid() && rhs.Valid() && SubFits(lhs, rhs)
    ensures r.Panicked? <==> !lhs.dataType.Decimal? || !rhs.dataType.Decimal?
    ensures r.Value? && r.get.Ok? ==>
      var out := r.get.value;
      var max := MaxValue(lhs.dataType.precision);
      && lhs.dataType.Decimal? && out.dataType == lhs.dataType == rhs.dataType
      && out.Valid() && |out.values| == |lhs.values| == |rhs.values|
      && (forall i :: 0 <= i < |out.values| ==> out.values[i] == Saturate(lhs.values[i] - rhs.values[i], max))
      && (forall i :: 0 <= i < |out.values| ==> (out.IsNull(i) <==> lhs.IsNull(i) || rhs.IsNull(i)))
    ensures lhs.dataType.Decimal? && lhs.dataType == rhs.dataType ==>
      (r.Value? && r.get.Ok? <==> |lhs.values| == |rhs.values|)
    ensures lhs.dataType.Decimal? && rhs.dataType.Decimal? && lhs.dataType != rhs.dataType ==>
      r.Value? && r.get.Err? && r.get.error.InvalidArgumentError?
    ensures lhs.dataType.Decimal? && lhs.dataType == rhs.dataType && |lhs.values| != |rhs.values| ==>
      r == Value(Err(InvalidArgumentError("Arrays must have the same length")))
  {
    match GetParameters(lhs.dataType, rhs.dataType)
    case Panicked(why) => Panicked(why)
    case Value(Err(e)) => Value(Err(e))
    case Value(Ok((precision, _))) =>
      Binary(lhs, rhs, lhs.dataType, (a, b) requires Fits(a - b) => Value(SaturatingSubOp(precision, a, b)))
  }

  /** `checked_sub(lhs, rhs)`: an overflowing difference becomes a null
      slot. */
  function CheckedSub(lhs: PrimitiveArray, rhs: PrimitiveArray): (r: Eval<Result<PrimitiveArray>>)
    requires lhs.Valid() && rhs.Valid() && SubFits(lhs, rhs)
    ensures r.Panicked? <==> !lhs.dataType.Decimal? || !rhs.dataType.Decimal?
    ensures r.Value? && r.get.Ok? ==>
      var out := r.get.value;
      var max := MaxValue(lhs.dataType.precision);
      && lhs.dataType.Decimal? && out.dataType == lhs.dataType == rhs.dataType
      && out.Valid() && |out.values| == |lhs.values| == |rhs.values|
      && forall i :: 0 <= i < |out.values| ==>
           && (out.IsNull(i) <==> lhs.IsNull(i) || rhs.IsNull(i) || Abs(lhs.values[i] - rhs.values[i]) > max)
           && (!out.IsNull(i) ==> out.values[i] + rhs.values[i] == lhs.values[i])
    ensures lhs.dataType.Decimal? && lhs.dataType == rhs.dataType ==>
      (r.Value? && r.get.Ok? <==> |lhs.values| == |rhs.values|)
    ensures lhs.dataType.Decimal? && rhs.dataType.Decimal? && lhs.dataType != rhs.dataType ==>
      r.Value? && r.get.Err? && r.get.error.InvalidArgumentError?
    ensures lhs.dataType.Decimal? && lhs.dataType == rhs.dataType && |lhs.values| != |rhs.values| ==>
      r == Value(Err(InvalidArgumentError("Arrays must have the same length")))
  {
    match GetParameters(lhs.dataType, rhs.dataType)
    case Panicked(why) => Panicked(why)
    case Value(Err(e)) => Value(Err(e))
    case Value(Ok((precision, _))) =>
      Value(BinaryChecked(lhs, rhs, lhs.dataType, (a, b) requires Fits(a - b) => CheckedSubOp(precision, a, b)))
  }

  // ---------------------------------------------------------------------
  // Adaptive subtraction

  /** Rescaling either operand to the larger scale, and the difference,
      stay within `i128`. */
  predicate AdaptiveSubFits(lhs: PrimitiveArray, rhs: PrimitiveArray)
  {
    lhs.dataType.Decimal? && rhs.dataType.Decimal? ==>
      var s := Max(lhs.dataType.scale, rhs.dataType.scale);
      forall i :: 0 <= i < |lhs.values| && i < |rhs.values| ==>
        && Fits(Rescale(lhs.values[i], lhs.dataType.scale, s))
        && Fits(Rescale(rhs.values[i], rhs.dataType.scale, s))
        && Fits(Rescale(lhs.values[i], lhs.dataType.scale, s) - Rescale(rhs.values[i], rhs.dataType.scale, s))
  }

  /** `adaptive_sub(lhs, rhs)`: the operands are brought to the larger scale
      and subtracted; the precision starts from `adjusted_precision_scale`
      and grows to the digits of any result that exceeds it. */
  method AdaptiveSub(lhs: PrimitiveArray, rhs: PrimitiveArray) returns (r: Result<PrimitiveArray>)
    requires lhs.Valid() && rhs.Valid() && AdaptiveSubFits(lhs, rhs)
    requires lhs.dataType.Decimal? && rhs.dataType.Decimal? ==>
      WellFormedDecimal(lhs.dataType) && WellFormedDecimal(rhs.dataType)
    ensures |lhs.values| != |rhs.values| ==> r == Err(InvalidArgumentError("Arrays must have the same length"))
    ensures |lhs.values| == |rhs.values| && !(lhs.dataType.Decimal? && rhs.dataType.Decimal?) ==>
      r == Err(InvalidArgumentError("Incorrect data type for the array"))
    ensures |lhs.values| == |rhs.values| && lhs.dataType.Decimal? && rhs.dataType.Decimal? ==>
      && r.Ok?
      && var (p, s, _) := AdjustedPrecisionScale(lhs.dataType.precision, lhs.dataType.scale,
                                                 rhs.dataType.precision, rhs.dataType.scale);
         var out := r.value;
         && |out.values| == |lhs.values|
         && (forall i :: 0 <= i < |out.values| ==>
               out.values[i] == Rescale(lhs.values[i], lhs.dataType.scale, s) - Rescale(rhs.values[i], rhs.dataType.scale, s))
         && out.dataType == Decimal(Max(p, MaxDigits(out.values)), s)
         && (forall i :: 0 <= i < |out.values| ==> Abs(out.values[i]) <= MaxValue(out.dataType.precision))
         && out.Valid()
         && (forall i :: 0 <= i < |out.values| ==> (out.IsNull(i) <==> lhs.IsNull(i) || rhs.IsNull(i)))
  {
    if |lhs.values| != |rhs.values| {
      return Err(InvalidArgumentError("Arrays must have the same length"));
    }
    if !(lhs.dataType.Decimal? && rhs.dataType.Decimal?) {
      return Err(InvalidArgumentError("Incorrect data type for the array"));
    }
    var lhsS, rhsS := lhs.dataType.scale, rhs.dataType.scale;
    var (p0, resS, diff) := AdjustedPrecisionScale(lhs.dataType.precision, lhsS, rhs.dataType.precision, rhsS);
    var shift := Pow10(diff);
    var resP;

    var values;
    values, resP := RescaledDifferences(lhs.values, rhs.values, lhsS, rhsS, resS, shift, p0);
    GrownPrecisionIsLeast(p0, values);

    var validity := CombineValidities(lhs.validity, rhs.validity, |values|);
    r := Ok(PrimitiveArray(Decimal(resP, resS), values, validity));
  }

  /** The iteration of `adaptive_sub`: each difference is taken at scale
      `resS` (the operand with the smaller scale is multiplied by `shift`),
      and `res_p` / `max` grow whenever a difference exceeds `max`. */
  method RescaledDifferences(ls: seq<int>, rs: seq<int>, lhsS: nat, rhsS: nat, resS: nat, shift: int, p0: nat)
    returns (values: seq<int>, resP: nat)
    requires |ls| == |rs|
    requires resS == Max(lhsS, rhsS)
    requires shift == Pow10(if lhsS > rhsS then lhsS - rhsS else rhsS - lhsS)
    ensures |values| == |ls|
    ensures forall j :: 0 <= j < |ls| ==>
      values[j] == Rescale(ls[j], lhsS, resS) - Rescale(rs[j], rhsS, resS)
    ensures resP == Max(p0, MaxDigits(values))
  {
    resP := p0;
    var max := MaxValue(resP);
    values := [];
    var i := 0;
    while i < |ls|
      invariant 0 <= i <= |ls| && |values| == i
      invariant forall j :: 0 <= j < i ==>
        values[j] == Rescale(ls[j], lhsS, resS) - Rescale(rs[j], rhsS, resS)
      invariant resP == Max(p0, MaxDigits(values))
      invariant max == MaxValue(resP)
    {
      var l, r := ls[i], rs[i];
      var res := if lhsS > rhsS then l - r * shift else l * shift - r;
      ShiftIsRescale(l, r, lhsS, rhsS, resS, shift);
      GrowStep(p0, values, res);
      if Abs(res) > max {
        resP := NumberDigits(res);
        max := MaxValue(resP);
      }
      DifferencesExtend(ls, rs, lhsS, rhsS, resS, values, res);
      values := values + [res];
      i := i + 1;
    }
  }

  /** Appending the next difference keeps every earlier one in place. */
  lemma DifferencesExtend(ls: seq<int>, rs: seq<int>, lhsS: nat, rhsS: nat, resS: nat, values: seq<int>, v: int)
    requires |values| < |ls| == |rs| && resS == Max(lhsS, rhsS)
    requires forall j :: 0 <= j < |values| ==>
      values[j] == Rescale(ls[j], lhsS, resS) - Rescale(rs[j], rhsS, resS)
    requires v == Rescale(ls[|values|], lhsS, resS) - Rescale(rs[|values|], rhsS, resS)
    ensures forall j :: 0 <= j < |values| + 1 ==>
      (values + [v])[j] == Rescale(ls[j], lhsS, resS) - Rescale(rs[j], rhsS, resS)
  {
    forall j | 0 <= j < |values| + 1
      ensures (values + [v])[j] == Rescale(ls[j], lhsS, resS) - Rescale(rs[j], rhsS, resS)
    {
      if j < |values| {
        assert (values + [v])[j] == values[j];
      }
    }
  }

  /** Shifting the operand with the smaller scale is rescaling both
      operands to the larger scale. */
  lemma ShiftIsRescale(l: int, r: int, lhsS: nat, rhsS: nat, resS: nat, shift: int)
    requires resS == Max(lhsS, rhsS)
    requires shift == Pow10(if lhsS > rhsS then lhsS - rhsS else rhsS - lhsS)
    ensures (if lhsS > rhsS then l - r * shift else l * shift - r)
            == Rescale(l, lhsS, resS) - Rescale(r, rhsS, resS)
  {
    if lhsS > rhsS {
      assert Rescale(l, lhsS, resS) == l * Pow10(0) == l;
    } else {
      assert Rescale(r, rhsS, resS) == r * Pow10(0) == r;
    }
  }

  // ---------------------------------------------------------------------
  // The documented examples

  /** `[1, 1, null, 2] - [1, 2, null, 2]` at `Decimal(5, 2)` is
      `[0, -1, null, 0]`. */
  lemma SubExample(a: PrimitiveArray, b: PrimitiveArray)
    requires a == PrimitiveArray(Decimal(5, 2), [1, 1, 0, 2], Some([true, true, false, true]))
    requires b == PrimitiveArray(Decimal(5, 2), [1, 2, 0, 2], Some([true, true, false, true]))
    ensures var r := Sub(a, b);
      && r.Value? && r.get.Ok? && r.get.value.dataType == Decimal(5, 2)
      && Cells(r.get.value) == [Some(0), Some(-1), None, Some(0)]
  {
    SubExampleFits(a, b);
    assert GetParameters(a.dataType, b.dataType) == Value(Ok((5, 2)));
    var out := Sub(a, b).get.value;
    assert out.values == [0, -1, 0, 0];
    assert out.IsNull(2) && !out.IsNull(0) && !out.IsNull(1) && !out.IsNull(3);
  }

  /** No difference of the example exceeds `max_value(5)`, so `sub` does
      not panic. */
  lemma SubExampleFits(a: PrimitiveArray, b: PrimitiveArray)
    requires a == PrimitiveArray(Decimal(5, 2), [1, 1, 0, 2], Some([true, true, false, true]))
    requires b == PrimitiveArray(Decimal(5, 2), [1, 2, 0, 2], Some([true, true, false, true]))
    ensures Sub(a, b).Value?
  {
    DecimalFiveTwo();
    assert GetParameters(a.dataType, b.dataType) == Value(Ok((5, 2)));
    assert forall i :: 0 <= i < |a.values| ==> Abs(a.values[i] - b.values[i]) <= 1;
  }

  /** `[-990.00, 111.00, null, 222.00] - [10.00, 222.00, null, 111.00]` at
      `Decimal(5, 2)` saturates the first slot to `-999.99`. */
  lemma SaturatingSubExample(a: PrimitiveArray, b: PrimitiveArray)
    requires a == PrimitiveArray(Decimal(5, 2), [-99000, 11100, 0, 22200], Some([true, true, false, true]))
    requires b == PrimitiveArray(Decimal(5, 2), [1000, 22200, 0, 11100], Some([true, true, false, true]))
    ensures var r := SaturatingSub(a, b);
      && r.Value? && r.get.Ok? && r.get.value.dataType == Decimal(5, 2)
      && Cells(r.get.value) == [Some(-99999), Some(-11100), None, Some(11100)]
  {
    DecimalFiveTwo();
    assert GetParameters(a.dataType, b.dataType) == Value(Ok((5, 2)));
    var r := SaturatingSub(a, b);
    assert r.Value? && r.get.Ok?;
    var out := r.get.value;
    assert out.values[0] == Saturate(-100000, 99999) == -99999;
    assert out.values[1] == -11100 && out.values[3] == 11100;
    assert out.IsNull(2) && !out.IsNull(0) && !out.IsNull(1) && !out.IsNull(3);
  }

  /** The same inputs under `checked_sub` make the first slot null. */
  lemma CheckedSubExample(a: PrimitiveArray, b: PrimitiveArray)
    requires a == PrimitiveArray(Decimal(5, 2), [-99000, 11100, 0, 22200], Some([true, true, false, true]))
    requires b == PrimitiveArray(Decimal(5, 2), [1000, 22200, 0, 11100], Some([true, true, false, true]))
    ensures var r := CheckedSub(a, b);
      && r.Value? && r.get.Ok? && r.get.value.dataType == Decimal(5, 2)
      && Cells(r.get.value) == [None, Some(-11100), None, Some(11100)]
  {
    DecimalFiveTwo();
    assert GetParameters(a.dataType, b.dataType) == Value(Ok((5, 2)));
    var out := CheckedSub(a, b).get.value;
    assert out.IsNull(0) && out.IsNull(2) && !out.IsNull(1) && !out.IsNull(3);
  }

  /** `99.9999 - (-0.0001)` at `Decimal(6, 4)` is `100.0000` at
      `Decimal(7, 4)`: the precision grows by one digit. */
  method AdaptiveSubExample() returns (r: Result<PrimitiveArray>)
    ensures r.Ok? && r.value.dataType == Decimal(7, 4) && r.value.Valid() && Cells(r.value) == [Some(1000000)]
  {
    r := AdaptiveSub(PrimitiveArray(Decimal(6, 4), [999999], None), PrimitiveArray(Decimal(6, 4), [-1], None));
    assert r.value.values == [1000000];
    SevenDigits();
    assert MaxDigits(r.value.values) == 7;
  }
}
