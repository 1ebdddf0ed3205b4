/** The quantisers (crates/ainonymous-quic/src/transfer.rs) in terms of the values, levels, scale and zero
    point alone. */
module QuantisedValues {
  import opened Prelude
  import opened Quantise

  predicate AllTiny(data: seq<Float>) {
    forall i :: 0 <= i < |data| ==> -0.00000001 < data[i] < 0.00000001
  }

  lemma NearZeroExactly(data: seq<Float>)
    ensures NearZero(data) <==> AllTiny(data)
  {
    if data != [] {
      MaxAbsIs(data);
      hide MaxAbs;
      forall i | 0 <= i < |data| ensures -MaxAbs(data) <= data[i] <= MaxAbs(data) {
        assert Abs(data[i]) <= MaxAbs(data);
      }
      var k :| 0 <= k < |data| && Abs(data[k]) == MaxAbs(data);
    }
  }

  /** Symmetric: values all below 1e-8 become zeros of scale one. Otherwise 127 steps of the scale are the
      largest magnitude, which is reached, and every level, at most 127 either way, times the scale is
      within half a step of its value. */
  lemma SignedValues(data: seq<Float>, simd: Rounding, scalar: Rounding)
    ensures var levels, s := Levels(data, simd, scalar), Scale(data);
      && |levels| == |data|
      && (AllTiny(data) ==> s == 1.0 && forall i :: 0 <= i < |data| ==> levels[i] == 0)
    ensures var levels, s := Levels(data, simd, scalar), Scale(data);
      !AllTiny(data) ==>
        && s > 0.0
        && (forall i :: 0 <= i < |data| ==> -127.0 * s <= data[i] <= 127.0 * s)
        && (exists i :: 0 <= i < |data| && (data[i] == 127.0 * s || data[i] == -127.0 * s))
        && (forall i :: 0 <= i < |data| ==> -127 <= levels[i] <= 127)
        && (forall i :: 0 <= i < |data| ==> -s / 2.0 <= levels[i] as real * s - data[i] <= s / 2.0)
  {
    NearZeroExactly(data);
    if NearZero(data) {
      ZeroLevels(data, simd, scalar);
    } else {
      assert Scale(data) * 127.0 == MaxAbs(data);
      hide *;
      forall i: nat | i < |data|
        ensures -127 <= Levels(data, simd, scalar)[i] <= 127
        ensures -Scale(data) / 2.0 <= Levels(data, simd, scalar)[i] as real * Scale(data) - data[i] <= Scale(data) / 2.0
      {
        OneValue(data, simd, scalar, i);
      }
      LargestReached(data, Scale(data));
    }
  }

  lemma OneValue(data: seq<Float>, simd: Rounding, scalar: Rounding, i: nat)
    requires i < |data| && !NearZero(data)
    ensures var level, s := Levels(data, simd, scalar)[i], Scale(data);
      -127 <= level <= 127 && -s / 2.0 <= level as real * s - data[i] <= s / 2.0
  {
    hide *;
    SymmetricError(data, simd, scalar, i);
    RestoredIs(data, simd, scalar, i);
    LevelIsNearest(data, i, simd, scalar);
    LevelAt(data, simd, scalar, i);
    ErrorWithin(Level(data, i, simd, scalar), Scale(data), Restored(data, simd, scalar, i), data[i]);
  }

  lemma LevelAt(data: seq<Float>, simd: Rounding, scalar: Rounding, i: nat)
    requires i < |data|
    ensures Levels(data, simd, scalar)[i] == Level(data, i, simd, scalar)
  {
    hide Level;
  }

  lemma ErrorWithin(level: int, s: real, restored: real, x: real)
    requires restored == Times(level, s) && Abs(restored - x) <= s / 2.0
    ensures -s / 2.0 <= level as real * s - x <= s / 2.0
  {}

  lemma LargestReached(data: seq<Float>, s: real)
    requires data != [] && s * 127.0 == MaxAbs(data)
    ensures forall i :: 0 <= i < |data| ==> -127.0 * s <= data[i] <= 127.0 * s
    ensures exists i :: 0 <= i < |data| && (data[i] == 127.0 * s || data[i] == -127.0 * s)
  {
    MaxAbsIs(data);
    hide MaxAbs;
    forall i | 0 <= i < |data| ensures -127.0 * s <= data[i] <= 127.0 * s {
      assert Abs(data[i]) <= MaxAbs(data);
    }
    var k :| 0 <= k < |data| && Abs(data[k]) == MaxAbs(data);
    assert data[k] == 127.0 * s || data[k] == -127.0 * s;
  }

  predicate AllClose(data: seq<Float>) {
    forall i, j :: 0 <= i < |data| && 0 <= j < |data| ==> data[i] as real - data[j] as real < 0.00000001
  }

  lemma NearConstantExactly(data: seq<Float>)
    ensures NearConstant(data) <==> AllClose(data)
  {
    if data != [] {
      Extremes(data);
      hide Least;
      hide Greatest;
      var i :| 0 <= i < |data| && data[i] == Greatest(data);
      var j :| 0 <= j < |data| && data[j] == Least(data);
      assert AllClose(data) ==> data[i] as real - data[j] as real < 0.00000001;
    }
  }

  /** A whole number of steps nearest to a value, kept between 0 and 255. */
  predicate Rounds(x: real, step: real, level: int) {
    || (0 <= level <= 255 && -step / 2.0 <= level as real * step - x <= step / 2.0)
    || (level == 0 && x <= step / 2.0)
    || (level == 255 && x >= 254.5 * step)
  }

  lemma RoundsIn(x: real, step: real, y: real, n: int)
    requires step > 0.0 && y * step == x && Nearest(y, n)
    ensures Rounds(x, step, ClampInt(n, 0, 255))
  {
    var e := n as real - y;
    NonNegative(0.5 - e, step);
    NonNegative(0.5 + e, step);
    Difference(n as real, y, step);
    Difference(0.5, e, step);
    Difference(0.5, -e, step);
    Difference(0.0, e, step);
    if n < 0 {
      NonNegative(-1.0 - n as real, step);
      Difference(-1.0, n as real, step);
    }
    if n > 255 {
      NonNegative(n as real - 256.0, step);
      Difference(n as real, 256.0, step);
    }
  }

  /** Asymmetric: values less than 1e-8 apart all get the level and the zero point 128, the step one.
      Otherwise 255 steps are the whole spread, the zero point is where the least value puts zero, and each
      level is its value in steps from there, both rounded and kept between 0 and 255. */
  lemma UnsignedValues(data: seq<Float>, round: Rounding)
    requires data != []
    ensures AllClose(data) ==>
      && Step(data) == 1.0 && ZeroPoint(data, round) == 128
      && forall i: nat :: i < |data| ==> UnsignedLevel(data, round, i) == 128
    ensures !AllClose(data) ==>
      exists least, greatest ::
        && IsLeast(data, least) && IsGreatest(data, greatest) && greatest - least == 255.0 * Step(data)
        && Rounds(-least, Step(data), ZeroPoint(data, round))
        && forall i: nat :: i < |data| ==>
             Rounds(data[i] + ZeroPoint(data, round) as real * Step(data), Step(data), UnsignedLevel(data, round, i))
  {
    NearConstantExactly(data);
    Constant(data, round);
    if !NearConstant(data) {
      Extremes(data);
      assert Greatest(data) - Least(data) == 255.0 * Step(data);
      hide *;
      ZeroPointRounds(data, round);
      forall i: nat | i < |data|
        ensures Rounds(data[i] + ZeroPoint(data, round) as real * Step(data), Step(data), UnsignedLevel(data, round, i))
      {
        LevelRounds(data, round, i, data[i]);
      }
    }
  }

  lemma ZeroPointRounds(data: seq<Float>, round: Rounding)
    requires data != [] && !NearConstant(data)
    ensures Rounds(-Least(data), Step(data), ZeroPoint(data, round))
  {
    ZeroPointIs(data, round);
    hide *;
    RoundsQuotient(-Least(data), Step(data), round);
  }

  lemma ZeroPointIs(data: seq<Float>, round: Rounding)
    requires data != [] && !NearConstant(data)
    ensures ZeroPoint(data, round) == ClampInt(round(InSteps(-Least(data), Step(data))), 0, 255)
  {
    hide Least;
    hide Step;
    hide NearConstant;
    hide InSteps;
    hide ClampInt;
  }

  lemma RoundsQuotient(x: real, s: real, round: Rounding)
    requires s > 0.0
    ensures Rounds(x, s, ClampInt(round(InSteps(x, s)), 0, 255))
  {
    InStepsBack(x, s);
    hide InSteps;
    var y := InSteps(x, s);
    assert Nearest(y, round(y));
    hide *;
    RoundsIn(x, s, y, round(y));
  }

  lemma LevelRounds(data: seq<Float>, round: Rounding, i: nat, x: real)
    requires !NearConstant(data) && i < |data| && x == data[i]
    ensures Rounds(x + ZeroPoint(data, round) as real * Step(data), Step(data), UnsignedLevel(data, round, i))
  {
    hide *;
    var z, s := ZeroPoint(data, round) as real, Step(data);
    UnsignedLevelIs(data, round, i, x);
    RoundsSum(x, z, s, round);
    assert z * s == ZeroPoint(data, round) as real * Step(data);
  }

  lemma UnsignedLevelIs(data: seq<Float>, round: Rounding, i: nat, x: real)
    requires !NearConstant(data) && i < |data| && x == data[i]
    ensures UnsignedLevel(data, round, i)
         == ClampInt(round(InSteps(x, Step(data)) + ZeroPoint(data, round) as real), 0, 255)
  {
    hide Step;
    hide ZeroPoint;
    hide NearConstant;
    hide InSteps;
    hide ClampInt;
  }

  lemma RoundsSum(x: real, z: real, s: real, round: Rounding)
    requires s > 0.0
    ensures Rounds(x + z * s, s, ClampInt(round(InSteps(x, s) + z), 0, 255))
  {
    var y := InSteps(x, s);
    InStepsBack(x, s);
    hide InSteps;
    Sum(y, z, s);
    var n := round(y + z);
    assert Nearest(y + z, n);
    hide *;
    RoundsIn(x + z * s, s, y + z, n);
  }

  lemma Sum(a: real, b: real, s: real)
    ensures (a + b) * s == a * s + b * s
  {}
}
