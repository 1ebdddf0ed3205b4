/** The activation quantisers of crates/ainonymous-quic/src/transfer.rs, over the reals.

    Floats are finite and rounding is any rounding to nearest: the vector and the scalar part of a
    loop may break ties differently. */
module Quantise {
  import opened Prelude

  const F32_MAX := 340282346638528859811704183484516925440.0

  /** A finite `f32`. */
  type Float = x: real | -F32_MAX <= x <= F32_MAX

  function Abs(x: real): real {
    if x < 0.0 then -x else x
  }

  predicate Nearest(x: real, n: int) {
    Abs(x - n as real) <= 0.5
  }

  type Rounding = f: real -> int | forall x :: Nearest(x, f(x)) ghost witness (x: real) => (x + 0.5).Floor

  function Clamp(x: real, lo: real, hi: real): real {
    if x < lo then lo else if x > hi then hi else x
  }

  function ClampInt(n: int, lo: int, hi: int): int {
    if n < lo then lo else if n > hi then hi else n
  }

  // ---------- Least and greatest element ----------

  ghost predicate IsLeast(data: seq<Float>, m: real) {
    (exists i :: 0 <= i < |data| && data[i] == m) && forall i :: 0 <= i < |data| ==> m <= data[i]
  }

  ghost predicate IsGreatest(data: seq<Float>, m: real) {
    (exists i :: 0 <= i < |data| && data[i] == m) && forall i :: 0 <= i < |data| ==> data[i] <= m
  }

  function Least(data: seq<Float>): (m: real) {
    if data == [] then F32_MAX
    else var m := Least(data[..|data| - 1]); if data[|data| - 1] < m then data[|data| - 1] else m
  }

  function Greatest(data: seq<Float>): (m: real) {
    if data == [] then -F32_MAX
    else var m := Greatest(data[..|data| - 1]); if data[|data| - 1] > m then data[|data| - 1] else m
  }

  lemma {:induction false} Extremes(data: seq<Float>)
    requires data != []
    ensures IsLeast(data, Least(data)) && IsGreatest(data, Greatest(data)) && Least(data) <= Greatest(data)
  {
    var n := |data|;
    var front := data[..n - 1];
    assert -F32_MAX <= data[n - 1] <= F32_MAX;
    if front == [] {
      assert Least(front) == F32_MAX && Greatest(front) == -F32_MAX;
      assert Least(data) == data[0] && Greatest(data) == data[0];
    } else {
      Extremes(front);
      var i :| 0 <= i < |front| && front[i] == Least(front);
      var j :| 0 <= j < |front| && front[j] == Greatest(front);
      assert data[i] == Least(front) && data[j] == Greatest(front);
      assert forall k :: 0 <= k < n ==> k == n - 1 || data[k] == front[k];
    }
  }

  /** The scan in blocks of eight and a scalar rest. */
  method ScanBlocks(data: seq<Float>) returns (min: real, max: real)
    ensures min == Least(data) && max == Greatest(data)
  {
    min, max := F32_MAX, -F32_MAX;
    var i := 0;
    while i + 8 <= |data|
      invariant 0 <= i <= |data| && min == Least(data[..i]) && max == Greatest(data[..i])
    {
      var block := data[i..i + 8];
      for j := 0 to 8
        invariant min == Least(data[..i + j]) && max == Greatest(data[..i + j])
      {
        assert data[..i + j + 1][..i + j] == data[..i + j];
        if block[j] < min { min := block[j]; }
        if block[j] > max { max := block[j]; }
      }
      i := i + 8;
    }
    min, max := Scan(data, i, min, max);
  }

  /** The scalar scan from index `i` on. */
  method Scan(data: seq<Float>, i: nat, min0: real, max0: real) returns (min: real, max: real)
    requires i <= |data| && min0 == Least(data[..i]) && max0 == Greatest(data[..i])
    ensures min == Least(data) && max == Greatest(data)
  {
    min, max := min0, max0;
    for k := i to |data|
      invariant min == Least(data[..k]) && max == Greatest(data[..k])
    {
      assert data[..k + 1][..k] == data[..k];
      if data[k] < min { min := data[k]; }
      if data[k] > max { max := data[k]; }
    }
    assert data[..|data|] == data;
  }

  // ---------- Symmetric, signed ----------

  function Larger(x: real, y: real): real {
    if x < y then y else x
  }

  /** The largest magnitude. */
  function MaxAbs(data: seq<Float>): real {
    Larger(Abs(Least(data)), Abs(Greatest(data)))
  }

  lemma MaxAbsIs(data: seq<Float>)
    requires data != []
    ensures forall i :: 0 <= i < |data| ==> Abs(data[i]) <= MaxAbs(data)
    ensures exists i :: 0 <= i < |data| && Abs(data[i]) == MaxAbs(data)
  {
    Extremes(data);
    var i :| 0 <= i < |data| && data[i] == Least(data);
    var j :| 0 <= j < |data| && data[j] == Greatest(data);
    assert Abs(data[i]) == MaxAbs(data) || Abs(data[j]) == MaxAbs(data);
  }

  predicate NearZero(data: seq<Float>) {
    data == [] || MaxAbs(data) < 0.00000001
  }

  function Scale(data: seq<Float>): (s: real)
    ensures s > 0.0
  {
    if NearZero(data) then 1.0 else MaxAbs(data) / 127.0
  }

  /** `v * inv_scale`. */
  function Scaled(x: real, scale: real): real
    requires scale > 0.0
  {
    x * (1.0 / scale)
  }

  /** The vector part clamps and then rounds, the scalar rest rounds and then clamps. */
  function Level(data: seq<Float>, i: nat, simd: Rounding, scalar: Rounding): int
    requires i < |data|
  {
    if NearZero(data) then 0
    else if i < |data| / 8 * 8 then simd(Clamp(Scaled(data[i], Scale(data)), -127.0, 127.0))
    else ClampInt(scalar(Scaled(data[i], Scale(data))), -127, 127)
  }

  function Levels(data: seq<Float>, simd: Rounding, scalar: Rounding): (levels: seq<int>)
    ensures |levels| == |data|
  {
    seq(|data|, i requires 0 <= i < |data| => Level(data, i, simd, scalar))
  }

  /** `q as f32 * scale`. */
  function Times(level: int, scale: real): real {
    level as real * scale
  }

  function Dequantized(levels: seq<int>, scale: real): (values: seq<real>)
    ensures |values| == |levels|
  {
    seq(|levels|, i requires 0 <= i < |levels| => Times(levels[i], scale))
  }

  lemma VectorLevel(data: seq<Float>, i: nat, j: nat, simd: Rounding, scalar: Rounding)
    requires !NearZero(data) && i % 8 == 0 && j < 8 && i + 8 <= |data|
    ensures Levels(data, simd, scalar)[i + j] == simd(Clamp(Scaled(data[i + j], Scale(data)), -127.0, 127.0))
  {
    hide NearZero;
    hide Scale;
    hide Scaled;
    assert i + j < |data| / 8 * 8;
  }

  lemma ScalarLevel(data: seq<Float>, k: nat, simd: Rounding, scalar: Rounding)
    requires !NearZero(data) && |data| / 8 * 8 <= k < |data|
    ensures Levels(data, simd, scalar)[k] == ClampInt(scalar(Scaled(data[k], Scale(data))), -127, 127)
  {
    hide NearZero;
    hide Scale;
    hide Scaled;
  }

  lemma ZeroLevels(data: seq<Float>, simd: Rounding, scalar: Rounding)
    requires NearZero(data)
    ensures Levels(data, simd, scalar) == seq(|data|, i => 0) && Scale(data) == 1.0
  {}

  method QuantizeToI8(data: seq<Float>, simd: Rounding, scalar: Rounding) returns (levels: seq<int>, scale: real)
    ensures levels == Levels(data, simd, scalar) && scale == Scale(data)
  {
    hide Least;
    hide Greatest;
    hide Scaled;
    hide Levels;
    if data == [] {
      ZeroLevels(data, simd, scalar);
      return [], 1.0;
    }
    var min, max := ScanBlocks(data);
    var absMax := Larger(Abs(min), Abs(max));
    if absMax < 0.00000001 {
      ZeroLevels(data, simd, scalar);
      return seq(|data|, i => 0), 1.0;
    }
    scale := absMax / 127.0;
    assert !NearZero(data) && scale == Scale(data);
    levels := Fill(data, simd, scalar, scale);
  }

  /** The vector blocks, then the scalar rest. */
  method Fill(data: seq<Float>, simd: Rounding, scalar: Rounding, scale: real) returns (levels: seq<int>)
    requires !NearZero(data) && scale == Scale(data)
    ensures levels == Levels(data, simd, scalar)
  {
    hide *;
    ghost var all := Levels(data, simd, scalar);
    levels := [];
    var i := 0;
    while i + 8 <= |data|
      invariant 0 <= i <= |data| && i % 8 == 0 && levels == all[..i]
    {
      var block := data[i..i + 8];
      for j := 0 to 8
        invariant levels == all[..i + j]
      {
        VectorLevel(data, i, j, simd, scalar);
        levels := levels + [simd(Clamp(Scaled(block[j], scale), -127.0, 127.0))];
      }
      i := i + 8;
    }
    for k := i to |data|
      invariant levels == all[..k]
    {
      ScalarLevel(data, k, simd, scalar);
      levels := levels + [ClampInt(scalar(Scaled(data[k], scale)), -127, 127)];
    }
  }

  lemma ScaledBack(x: real, scale: real)
    requires scale > 0.0
    ensures Scaled(x, scale) * scale == x
  {
    assert 1.0 / scale * scale == 1.0;
    assert x * (1.0 / scale) * scale == x * (1.0 / scale * scale);
  }

  /** `b` units of the scale bound a value exactly when `b` bounds it in units of the scale. */
  lemma ScaledWithin(x: real, scale: real, b: real)
    requires scale > 0.0
    ensures Scaled(x, scale) <= b <==> x <= b * scale
    ensures Scaled(x, scale) >= b <==> x >= b * scale
  {
    var y := Scaled(x, scale);
    ScaledBack(x, scale);
    hide Scaled;
    if y <= b { NonNegative(b - y, scale); }
    if y >= b { NonNegative(y - b, scale); }
    Difference(b, y, scale);
    if y != b { Positive(Abs(b - y), scale); }
  }

  lemma Difference(a: real, b: real, s: real)
    ensures (a - b) * s == a * s - b * s
  {}

  /** In units of the scale no value exceeds 127. */
  lemma ScaledRange(data: seq<Float>, i: nat)
    requires i < |data| && !NearZero(data)
    ensures -127.0 <= Scaled(data[i], Scale(data)) <= 127.0
  {
    MaxAbsIs(data);
    assert Scale(data) * 127.0 == MaxAbs(data);
    hide MaxAbs;
    ScaledWithin(data[i], Scale(data), 127.0);
    ScaledWithin(data[i], Scale(data), -127.0);
  }

  lemma LevelIsNearest(data: seq<Float>, i: nat, simd: Rounding, scalar: Rounding)
    requires i < |data|
    ensures var level := Level(data, i, simd, scalar);
      && -127 <= level <= 127
      && (!NearZero(data) ==> Nearest(Scaled(data[i], Scale(data)), level))
  {
    if !NearZero(data) {
      ScaledRange(data, i);
      hide Scaled;
      hide Scale;
      hide NearZero;
      var y := Scaled(data[i], Scale(data));
      assert Nearest(y, simd(y)) && Nearest(y, scalar(y));
    }
  }

  /** What becomes of one value. */
  function Restored(data: seq<Float>, simd: Rounding, scalar: Rounding, i: nat): real
    requires i < |data|
  {
    Dequantized(Levels(data, simd, scalar), Scale(data))[i]
  }

  /** Quantising and dequantising changes no value by more than half a scale step; a tensor within
      1e-8 of zero becomes zero. */
  lemma SymmetricError(data: seq<Float>, simd: Rounding, scalar: Rounding, i: nat)
    requires i < |data|
    ensures NearZero(data) ==> Restored(data, simd, scalar, i) == 0.0 && Abs(data[i]) < 0.00000001
    ensures !NearZero(data) ==> Abs(Restored(data, simd, scalar, i) - data[i]) <= Scale(data) / 2.0
  {
    RestoredIs(data, simd, scalar, i);
    LevelIsNearest(data, i, simd, scalar);
    var level := Level(data, i, simd, scalar);
    hide Restored;
    if NearZero(data) {
      MaxAbsIs(data);
    } else {
      hide Scale;
      hide Level;
      hide NearZero;
      HalfStep(data[i], level, Scale(data));
    }
  }

  lemma RestoredIs(data: seq<Float>, simd: Rounding, scalar: Rounding, i: nat)
    requires i < |data|
    ensures Restored(data, simd, scalar, i) == Times(Level(data, i, simd, scalar), Scale(data))
    ensures NearZero(data) ==> Restored(data, simd, scalar, i) == 0.0
  {
    hide Times;
    hide Scale;
    hide NearZero;
    if NearZero(data) { TimesZero(Scale(data)); }
  }

  lemma TimesZero(s: real)
    ensures Times(0, s) == 0.0
  {}

  /** The nearest level is at most half a step away. */
  lemma HalfStep(x: real, level: int, s: real)
    requires s > 0.0 && Nearest(Scaled(x, s), level)
    ensures Abs(Times(level, s) - x) <= s / 2.0
  {
    var y, l := Scaled(x, s), level as real;
    ScaledBack(x, s);
    hide Scaled;
    Difference(l, y, s);
    NonNegative(0.5 - (l - y), s);
    NonNegative(0.5 + (l - y), s);
    Difference(0.5, l - y, s);
    Difference(0.5, y - l, s);
    Difference(y, l, s);
  }

  // ---------- Quantising again ----------

  /** The largest magnitude is the only bound that is reached. */
  lemma MaxAbsUnique(data: seq<Float>, m: real, i: nat)
    requires i < |data| && Abs(data[i]) == m
    requires forall k :: 0 <= k < |data| ==> Abs(data[k]) <= m
    ensures MaxAbs(data) == m
  {
    MaxAbsIs(data);
    hide MaxAbs;
    var j :| 0 <= j < |data| && Abs(data[j]) == MaxAbs(data);
    assert Abs(data[i]) <= MaxAbs(data);
  }

  lemma WholeIsNearest(x: real, n: int, level: int)
    requires x == n as real && Nearest(x, level)
    ensures level == n
  {}

  /** A level times the scale is a float, no larger than the largest value, and exactly that many steps. */
  lemma StepsBack(level: int, data: seq<Float>)
    requires -127 <= level <= 127 && !NearZero(data)
    ensures Abs(Times(level, Scale(data))) <= MaxAbs(data)
    ensures Scaled(Times(level, Scale(data)), Scale(data)) == level as real
    ensures level == 127 || level == -127 ==> Abs(Times(level, Scale(data))) == MaxAbs(data)
  {
    var s, x := Scale(data), Times(level, Scale(data));
    assert 127.0 * s == MaxAbs(data);
    hide MaxAbs;
    hide Scale;
    hide NearZero;
    ScaledWithin(x, s, level as real);
    ScaledWithin(x, s, 127.0);
    ScaledWithin(x, s, -127.0);
  }

  /** The largest value becomes the largest level. */
  lemma LargestLevel(data: seq<Float>, i: nat, simd: Rounding, scalar: Rounding)
    requires i < |data| && !NearZero(data) && Abs(data[i]) == MaxAbs(data)
    ensures Level(data, i, simd, scalar) == 127 || Level(data, i, simd, scalar) == -127
  {
    var s, level := Scale(data), Level(data, i, simd, scalar);
    assert 127.0 * s == MaxAbs(data);
    LevelIsNearest(data, i, simd, scalar);
    hide *;
    var n := if data[i] < 0.0 then -127 else 127;
    LargestScaled(data[i], s, n);
    WholeIsNearest(Scaled(data[i], s), n, level);
  }

  lemma LargestScaled(x: real, s: real, n: int)
    requires s > 0.0 && x == n as real * s
    ensures Scaled(x, s) == n as real
  {
    ScaledWithin(x, s, n as real);
  }

  lemma RestoredBound(data: seq<Float>, simd: Rounding, scalar: Rounding, i: nat)
    requires i < |data|
    ensures Abs(Restored(data, simd, scalar, i)) <= F32_MAX
    ensures !NearZero(data) ==> Abs(Restored(data, simd, scalar, i)) <= MaxAbs(data)
  {
    RestoredIs(data, simd, scalar, i);
    LevelIsNearest(data, i, simd, scalar);
    MaxAbsIs(data);
    hide Restored;
    hide MaxAbs;
    if !NearZero(data) {
      StepsBack(Level(data, i, simd, scalar), data);
      var k :| 0 <= k < |data| && Abs(data[k]) == MaxAbs(data);
      assert -F32_MAX <= data[k] <= F32_MAX;
    }
  }

  /** A restored value is a float again. */
  function RestoredFloat(data: seq<Float>, simd: Rounding, scalar: Rounding, i: nat): Float
    requires i < |data|
  {
    RestoredBound(data, simd, scalar, i);
    Restored(data, simd, scalar, i)
  }

  /** The tensor a quantised tensor comes back as. */
  function RestoredTensor(data: seq<Float>, simd: Rounding, scalar: Rounding): (again: seq<Float>)
    ensures |again| == |data|
  {
    seq(|data|, i requires 0 <= i < |data| => RestoredFloat(data, simd, scalar, i))
  }

  lemma RestoredTensorIs(data: seq<Float>, simd: Rounding, scalar: Rounding)
    ensures RestoredTensor(data, simd, scalar) == Dequantized(Levels(data, simd, scalar), Scale(data))
    ensures forall i: nat :: i < |data| ==> RestoredTensor(data, simd, scalar)[i] == Restored(data, simd, scalar, i)
  {
    hide Scale;
    hide Levels;
    hide Times;
  }

  /** What was quantised once is unchanged by quantising again, whatever the two roundings do with ties. */
  lemma Requantise(data: seq<Float>, simd: Rounding, scalar: Rounding, simd': Rounding, scalar': Rounding)
    ensures var again := RestoredTensor(data, simd, scalar);
      && again == Dequantized(Levels(data, simd, scalar), Scale(data))
      && Levels(again, simd', scalar') == Levels(data, simd, scalar) && Scale(again) == Scale(data)
  {
    var again := RestoredTensor(data, simd, scalar);
    RestoredTensorIs(data, simd, scalar);
    hide RestoredTensor;
    if data == [] {
    } else if NearZero(data) {
      forall i: nat | i < |data| ensures again[i] == 0.0 { RestoredIs(data, simd, scalar, i); }
      MaxAbsUnique(again, 0.0, 0);
      ZeroLevels(data, simd, scalar);
      ZeroLevels(again, simd', scalar');
    } else {
      SameScale(data, again, simd, scalar);
      forall i: nat | i < |data|
        ensures Level(again, i, simd', scalar') == Level(data, i, simd, scalar)
      {
        SameLevel(data, again, simd, scalar, simd', scalar', i);
      }
    }
  }

  lemma SameScale(data: seq<Float>, again: seq<Float>, simd: Rounding, scalar: Rounding)
    requires !NearZero(data) && |again| == |data|
    requires forall i: nat :: i < |data| ==> again[i] == Restored(data, simd, scalar, i)
    ensures !NearZero(again) && Scale(again) == Scale(data)
  {
    MaxAbsIs(data);
    var k :| 0 <= k < |data| && Abs(data[k]) == MaxAbs(data);
    LargestLevel(data, k, simd, scalar);
    RestoredIs(data, simd, scalar, k);
    StepsBack(Level(data, k, simd, scalar), data);
    forall i: nat | i < |data| ensures Abs(again[i]) <= MaxAbs(data) { RestoredBound(data, simd, scalar, i); }
    hide Restored;
    hide Level;
    MaxAbsUnique(again, MaxAbs(data), k);
    hide MaxAbs;
  }

  lemma SameLevel(data: seq<Float>, again: seq<Float>, simd: Rounding, scalar: Rounding, simd': Rounding, scalar': Rounding,
                  i: nat)
    requires i < |data| == |again| && !NearZero(data) && !NearZero(again) && Scale(again) == Scale(data)
    requires again[i] == Restored(data, simd, scalar, i)
    ensures Level(again, i, simd', scalar') == Level(data, i, simd, scalar)
  {
    hide *;
    var level := Level(data, i, simd, scalar);
    LevelIsNearest(data, i, simd, scalar);
    RestoredIs(data, simd, scalar, i);
    StepsBack(level, data);
    LevelIsNearest(again, i, simd', scalar');
    WholeIsNearest(Scaled(again[i], Scale(again)), level, Level(again, i, simd', scalar'));
  }

  // ---------- Asymmetric, unsigned ----------

  datatype Coded = Coded(levels: seq<int>, scale: real, zeroPoint: int)

  predicate NearConstant(data: seq<Float>) {
    data == [] || Greatest(data) - Least(data) < 0.00000001
  }

  function Step(data: seq<Float>): (s: real)
    ensures s > 0.0
  {
    if NearConstant(data) then 1.0 else (Greatest(data) - Least(data)) / 255.0
  }

  function InSteps(x: real, step: real): real
    requires step > 0.0
  {
    x / step
  }

  function ZeroPoint(data: seq<Float>, round: Rounding): (z: int)
    ensures 0 <= z <= 255
  {
    if data == [] then 0
    else if NearConstant(data) then 128
    else ClampInt(round(InSteps(-Least(data), Step(data))), 0, 255)
  }

  function UnsignedLevel(data: seq<Float>, round: Rounding, i: nat): (level: int)
    requires i < |data|
    ensures 0 <= level <= 255
  {
    if NearConstant(data) then 128
    else ClampInt(round(InSteps(data[i], Step(data)) + ZeroPoint(data, round) as real), 0, 255)
  }

  lemma Constant(data: seq<Float>, round: Rounding)
    requires data != []
    ensures Abs(Greatest(data) - Least(data)) < 0.00000001 <==> NearConstant(data)
    ensures NearConstant(data) ==> Step(data) == 1.0 && ZeroPoint(data, round) == 128
    ensures NearConstant(data) ==> forall i: nat :: i < |data| ==> UnsignedLevel(data, round, i) == 128
  {
    Extremes(data);
    hide Least;
    hide Greatest;
  }

  method QuantizeToU8(data: seq<Float>, round: Rounding) returns (r: Coded)
    ensures |r.levels| == |data| && r.scale == Step(data) && r.zeroPoint == ZeroPoint(data, round)
    ensures forall i :: 0 <= i < |data| ==> r.levels[i] == UnsignedLevel(data, round, i)
  {
    hide Least;
    hide Greatest;
    if data == [] { return Coded([], 1.0, 0); }
    NoExtremes(data);
    var min, max := Scan(data, 0, F32_MAX, -F32_MAX);
    Constant(data, round);
    if Abs(max - min) < 0.00000001 {
      return Coded(seq(|data|, i => 128), 1.0, 128);
    }
    var scale := (max - min) / 255.0;
    assert scale == Step(data) && !NearConstant(data);
    hide Step;
    hide NearConstant;
    hide InSteps;
    var zeroPoint := ClampInt(round(InSteps(-min, scale)), 0, 255);
    assert zeroPoint == ZeroPoint(data, round);
    var levels := seq(|data|, i requires 0 <= i < |data| =>
      ClampInt(round(InSteps(data[i], scale) + zeroPoint as real), 0, 255));
    return Coded(levels, scale, zeroPoint);
  }

  lemma NoExtremes(data: seq<Float>)
    ensures Least(data[..0]) == F32_MAX && Greatest(data[..0]) == -F32_MAX
  {}

  function UnsignedRestored(data: seq<Float>, round: Rounding, i: nat): real
    requires i < |data|
  {
    Times(UnsignedLevel(data, round, i) - ZeroPoint(data, round), Step(data))
  }

  /** When half a step is enough: the range begins at most half a step above zero and ends at most
      half a step below it; a nearly constant tensor, whose values all come back as zero, lies
      within one half of zero. */
  predicate HalfStepSuffices(data: seq<Float>) {
    if NearConstant(data) then data == [] || MaxAbs(data) <= 0.5
    else Least(data) <= Step(data) / 2.0 && Greatest(data) >= -Step(data) / 2.0
  }

  lemma Compare(a: real, b: real, s: real)
    requires s > 0.0
    ensures a * s <= b * s <==> a <= b
  {
    Difference(a, b, s);
    Difference(b, a, s);
    if a < b { Positive(b - a, s); } else if b < a { Positive(a - b, s); }
  }

  lemma InStepsBack(x: real, s: real)
    requires s > 0.0
    ensures InSteps(x, s) * s == x
  {}

  lemma InStepsIs(x: real, s: real, y: real)
    requires s > 0.0 && y * s == x
    ensures InSteps(x, s) == y
  {}

  lemma AbsTimes(e: real, s: real)
    requires s > 0.0
    ensures Abs(e * s) == Abs(e) * s
  {
    if e < 0.0 {
      Positive(-e, s);
      assert (-e) * s == -(e * s);
    } else {
      NonNegative(e, s);
    }
  }

  lemma HalfOf(m: real, s: real)
    requires s > 0.0
    ensures m * s <= s / 2.0 <==> m <= 0.5
  {
    Difference(0.5, m, s);
    assert 0.5 * s == s / 2.0;
    if m <= 0.5 {
      NonNegative(0.5 - m, s);
    } else {
      Positive(m - 0.5, s);
      Difference(m, 0.5, s);
    }
  }

  /** Distances in steps and distances in values. */
  lemma StepError(x: real, s: real, k: int)
    requires s > 0.0
    ensures Abs(Times(k, s) - x) <= s / 2.0 <==> Abs(k as real - InSteps(x, s)) <= 0.5
  {
    var y := InSteps(x, s);
    InStepsBack(x, s);
    hide InSteps;
    var e := k as real - y;
    Difference(k as real, y, s);
    AbsTimes(e, s);
    HalfOf(Abs(e), s);
    ErrorIs(k, s, e, x);
  }

  lemma ErrorIs(k: int, s: real, e: real, x: real)
    requires e * s == k as real * s - x
    ensures Times(k, s) - x == e * s
  {}

  /** In steps: a range of 255 steps from `a`, rounded to levels around a rounded zero point. */
  lemma LevelFits(a: real, y: real, n: int, m: int)
    requires a <= y <= a + 255.0 && Nearest(-a, n) && Nearest(y + ClampInt(n, 0, 255) as real, m)
    requires -255.5 <= a <= 0.5
    ensures Abs((ClampInt(m, 0, 255) - ClampInt(n, 0, 255)) as real - y) <= 0.5
  {}

  lemma LevelMisses(a: real, n: int, m: int)
    ensures a > 0.5 && Nearest(-a, n) && Nearest(a + 255.0 + ClampInt(n, 0, 255) as real, m) ==>
      Abs((ClampInt(m, 0, 255) - ClampInt(n, 0, 255)) as real - (a + 255.0)) > 0.5
    ensures a < -255.5 && Nearest(-a, n) && Nearest(a + ClampInt(n, 0, 255) as real, m) ==>
      Abs((ClampInt(m, 0, 255) - ClampInt(n, 0, 255)) as real - a) > 0.5
  {}

  /** The range in steps, and the condition on it. */
  lemma RangeInSteps(least: real, greatest: real, s: real)
    requires s > 0.0 && s * 255.0 == greatest - least
    ensures var a := InSteps(least, s);
      && InSteps(-least, s) == -a && InSteps(greatest, s) == a + 255.0
      && (least <= s / 2.0 && greatest >= -s / 2.0 <==> -255.5 <= a <= 0.5)
  {
    var a := InSteps(least, s);
    InStepsBack(least, s);
    hide InSteps;
    Difference(0.0, a, s);
    Difference(a, -255.0, s);
    InStepsIs(-least, s, -a);
    InStepsIs(greatest, s, a + 255.0);
    Compare(a, 0.5, s);
    Compare(-0.5, a + 255.0, s);
  }

  lemma InRange(x: real, least: real, greatest: real, s: real)
    requires s > 0.0 && least <= x <= greatest
    ensures InSteps(least, s) <= InSteps(x, s) <= InSteps(greatest, s)
  {
    InStepsBack(x, s);
    InStepsBack(least, s);
    InStepsBack(greatest, s);
    hide InSteps;
    Compare(InSteps(least, s), InSteps(x, s), s);
    Compare(InSteps(x, s), InSteps(greatest, s), s);
  }

  /** Every value survives to within half a step exactly when the condition holds. */
  lemma AsymmetricErrorExactly(data: seq<Float>, round: Rounding)
    ensures (forall i: nat :: i < |data| ==> Abs(UnsignedRestored(data, round, i) - data[i]) <= Step(data) / 2.0)
       <==> HalfStepSuffices(data)
  {
    if data == [] {
    } else if NearConstant(data) {
      ConstantError(data, round);
    } else {
      SpreadError(data, round);
    }
  }

  /** A nearly constant tensor comes back as zero. */
  lemma ConstantError(data: seq<Float>, round: Rounding)
    requires data != [] && NearConstant(data)
    ensures forall i: nat :: i < |data| ==> UnsignedRestored(data, round, i) == 0.0
    ensures (forall i: nat :: i < |data| ==> Abs(UnsignedRestored(data, round, i) - data[i]) <= Step(data) / 2.0)
       <==> HalfStepSuffices(data)
  {
    Constant(data, round);
    forall i: nat | i < |data| ensures UnsignedRestored(data, round, i) == 0.0 { TimesZero(Step(data)); }
    MaxAbsIs(data);
    var k :| 0 <= k < |data| && Abs(data[k]) == MaxAbs(data);
    hide MaxAbs;
    hide UnsignedRestored;
    assert Abs(UnsignedRestored(data, round, k) - data[k]) == Abs(data[k]);
  }

  lemma SpreadError(data: seq<Float>, round: Rounding)
    requires !NearConstant(data)
    ensures (forall i: nat :: i < |data| ==> Abs(UnsignedRestored(data, round, i) - data[i]) <= Step(data) / 2.0)
       <==> HalfStepSuffices(data)
  {
    var s, least, greatest := Step(data), Least(data), Greatest(data);
    assert s * 255.0 == greatest - least;
    Extremes(data);
    RangeInSteps(least, greatest, s);
    var i: nat :| i < |data| && data[i] == Least(data);
    var j: nat :| j < |data| && data[j] == Greatest(data);
    forall k: nat | k < |data|
      ensures HalfStepSuffices(data) ==> Abs(UnsignedRestored(data, round, k) - data[k]) <= s / 2.0
    {
      ValueError(data, round, k);
    }
    ValueError(data, round, i);
    ValueError(data, round, j);
  }

  /** One value of a range of 255 steps, its rounded level and the rounded zero point. */
  lemma ValueInSteps(x: real, least: real, greatest: real, s: real, n: int, m: int)
    requires s > 0.0 && s * 255.0 == greatest - least && least <= x <= greatest
    requires Nearest(InSteps(-least, s), n) && Nearest(InSteps(x, s) + ClampInt(n, 0, 255) as real, m)
    ensures var a, level := InSteps(least, s), ClampInt(m, 0, 255) - ClampInt(n, 0, 255);
      var fits := Abs(level as real - InSteps(x, s)) <= 0.5;
      && (-255.5 <= a <= 0.5 ==> fits)
      && (a > 0.5 && x == greatest ==> !fits)
      && (a < -255.5 && x == least ==> !fits)
  {
    hide *;
    var a, y := InSteps(least, s), InSteps(x, s);
    RangeInSteps(least, greatest, s);
    InRange(x, least, greatest, s);
    if -255.5 <= a <= 0.5 {
      LevelFits(a, y, n, m);
    } else {
      LevelMisses(a, n, m);
    }
  }

  lemma SpreadInSteps(data: seq<Float>)
    requires !NearConstant(data)
    ensures Step(data) * 255.0 == Greatest(data) - Least(data)
  {}

  lemma ExtremesBound(data: seq<Float>, k: nat)
    requires k < |data|
    ensures Least(data) <= data[k] <= Greatest(data)
  {
    Extremes(data);
  }

  /** One value of a tensor. */
  lemma ValueError(data: seq<Float>, round: Rounding, k: nat)
    requires !NearConstant(data) && k < |data|
    ensures var a := InSteps(Least(data), Step(data));
      var fits := Abs(UnsignedRestored(data, round, k) - data[k]) <= Step(data) / 2.0;
      && (-255.5 <= a <= 0.5 ==> fits)
      && (a > 0.5 && data[k] == Greatest(data) ==> !fits)
      && (a < -255.5 && data[k] == Least(data) ==> !fits)
  {
    hide *;
    var s, least, greatest := Step(data), Least(data), Greatest(data);
    SpreadInSteps(data);
    ExtremesBound(data, k);
    var n := round(InSteps(-least, s));
    var m := round(InSteps(data[k], s) + ClampInt(n, 0, 255) as real);
    assert Nearest(InSteps(-least, s), n) && Nearest(InSteps(data[k], s) + ClampInt(n, 0, 255) as real, m);
    ValueInSteps(data[k], least, greatest, s, n, m);
    UnsignedRestoredIs(data, round, k, n, m);
    StepError(data[k], s, ClampInt(m, 0, 255) - ClampInt(n, 0, 255));
  }

  lemma UnsignedRestoredIs(data: seq<Float>, round: Rounding, k: nat, n: int, m: int)
    requires !NearConstant(data) && k < |data| && n == round(InSteps(-Least(data), Step(data)))
    requires m == round(InSteps(data[k], Step(data)) + ClampInt(n, 0, 255) as real)
    ensures UnsignedRestored(data, round, k) == Times(ClampInt(m, 0, 255) - ClampInt(n, 0, 255), Step(data))
  {
    hide InSteps;
    hide Times;
    hide Step;
    hide Least;
    hide Greatest;
  }

  /** A range away from zero: of 10 and 11 one comes back more than half a step off. */
  lemma FarFromZero(round: Rounding)
    ensures var data: seq<Float> := [10.0, 11.0];
      exists i: nat :: i < |data| && Abs(UnsignedRestored(data, round, i) - data[i]) > Step(data) / 2.0
  {
    var data: seq<Float> := [10.0, 11.0];
    Extremes(data);
    assert data[0] == 10.0 && data[1] == 11.0;
    assert Least(data) == 10.0 && Greatest(data) == 11.0;
    hide Least;
    hide Greatest;
    assert !HalfStepSuffices(data);
    AsymmetricErrorExactly(data, round);
  }
}
