/** Air density from the ideal gas law and hydrostatic pressure extrapolation.
    Both reject the whole call when a temperature or pressure is negative.
    The exponential is a parameter `exp`. */
module Thermodynamics {
  import opened MetData

  /** Air density (kg/m^3) of each row, from pressure (Pa) and temperature (K). */
  function ComputeAirDensity(temp: seq<real>, pres: seq<real>): (r: Result<seq<real>, ValidityError>)
    requires |temp| == |pres|
    requires (forall i :: 0 <= i < |temp| ==> temp[i] >= 0.0 && pres[i] >= 0.0) ==>
      forall i :: 0 <= i < |temp| ==> temp[i] != 0.0
    ensures r.Err? <==> exists i :: 0 <= i < |temp| && (temp[i] < 0.0 || pres[i] < 0.0)
    ensures r.Ok? ==> |r.value| == |temp|
    ensures r.Ok? ==> forall i :: 0 <= i < |temp| ==>
      r.value[i] >= 0.0 && r.value[i] * temp[i] * R_DRY_AIR == pres[i]
  {
    if (exists i :: 0 <= i < |temp| && temp[i] < 0.0) || (exists i :: 0 <= i < |pres| && pres[i] < 0.0) then
      Err(NegativeData)
    else
      Ok(seq(|temp|, i requires 0 <= i < |temp| => Density(pres[i], temp[i])))
  }

  /** Ideal gas law for one row: p / T / R. */
  function Density(p: real, t: real): (rho: real)
    requires p >= 0.0 && t > 0.0
    ensures rho >= 0.0 && rho * t * R_DRY_AIR == p
  {
    p / t / R_DRY_AIR
  }

  /** Exponent of the barometric formula: -g (z1 - z0) / R / T. */
  function Exponent(tempAvg: real, z0: real, z1: real): real
    requires tempAvg != 0.0
  {
    -(GRAVITY * (z1 - z0)) / R_DRY_AIR / tempAvg
  }

  /** Pressure of one row extrapolated from height z0 to height z1. */
  function Extrapolated(p0: real, tempAvg: real, z0: real, z1: real, exp: real -> real): real
    requires tempAvg != 0.0
  {
    p0 * exp(Exponent(tempAvg, z0, z1))
  }

  /** Pressure at height z1 of each row, from the pressure p0 at height z0 and
      the mean layer temperature. The heights are columns; a scalar height is
      the constant column. */
  function PressureVerticalExtrapolation(p0: seq<real>, tempAvg: seq<real>, z0: seq<real>, z1: seq<real>,
                                         exp: real -> real): (r: Result<seq<real>, ValidityError>)
    requires |tempAvg| == |p0| && |z0| == |p0| && |z1| == |p0|
    requires (forall i :: 0 <= i < |p0| ==> p0[i] >= 0.0 && tempAvg[i] >= 0.0) ==>
      forall i :: 0 <= i < |p0| ==> tempAvg[i] != 0.0
    ensures r.Err? <==> exists i :: 0 <= i < |p0| && (p0[i] < 0.0 || tempAvg[i] < 0.0)
    ensures r.Ok? ==> |r.value| == |p0|
    ensures r.Ok? ==> forall i :: 0 <= i < |p0| ==> r.value[i] == Extrapolated(p0[i], tempAvg[i], z0[i], z1[i], exp)
  {
    if (exists i :: 0 <= i < |p0| && p0[i] < 0.0) || (exists i :: 0 <= i < |tempAvg| && tempAvg[i] < 0.0) then
      Err(NegativeData)
    else
      Ok(seq(|p0|, i requires 0 <= i < |p0| => Extrapolated(p0[i], tempAvg[i], z0[i], z1[i], exp)))
  }

  /** Given exp(0) = 1, extrapolating to the reference height itself returns
      the reference pressure. */
  lemma SameHeightKeepsPressure(p0: seq<real>, tempAvg: seq<real>, z0: seq<real>, exp: real -> real)
    requires |tempAvg| == |p0| && |z0| == |p0|
    requires forall i :: 0 <= i < |p0| ==> p0[i] >= 0.0 && tempAvg[i] > 0.0
    requires exp(0.0) == 1.0
    ensures PressureVerticalExtrapolation(p0, tempAvg, z0, z0, exp) == Ok(p0)
  {
    var r := PressureVerticalExtrapolation(p0, tempAvg, z0, z0, exp);
    forall i | 0 <= i < |p0| ensures r.value[i] == p0[i] {
      var t, z := tempAvg[i], z0[i];
      assert Exponent(t, z, z) == 0.0;
    }
    assert r.value == p0;
  }

  /** With exp(x) in (0, 1) for negative x, a warm layer and a positive
      reference pressure, pressure strictly falls with height and stays positive. */
  lemma PressureFallsWithHeight(p0: real, tempAvg: real, z0: real, z1: real, exp: real -> real)
    requires p0 > 0.0 && tempAvg > 0.0 && z1 > z0
    requires forall x :: x < 0.0 ==> 0.0 < exp(x) < 1.0
    ensures 0.0 < Extrapolated(p0, tempAvg, z0, z1, exp)
    ensures Extrapolated(p0, tempAvg, z0, z1, exp) < p0
  {
    ExponentNegative(tempAvg, z0, z1);
    ExtrapolatedPositive(p0, tempAvg, z0, z1, exp);
    ExtrapolatedBelowReference(p0, tempAvg, z0, z1, exp);
  }

  lemma ExponentNegative(tempAvg: real, z0: real, z1: real)
    requires tempAvg > 0.0 && z1 > z0
    ensures Exponent(tempAvg, z0, z1) < 0.0
  {
    var a := -(GRAVITY * (z1 - z0)) / R_DRY_AIR;
    assert a < 0.0;
    assert a / tempAvg < 0.0;
  }

  lemma ExtrapolatedPositive(p0: real, tempAvg: real, z0: real, z1: real, exp: real -> real)
    requires p0 > 0.0 && tempAvg != 0.0
    requires 0.0 < exp(Exponent(tempAvg, z0, z1))
    ensures 0.0 < Extrapolated(p0, tempAvg, z0, z1, exp)
  {
  }

  lemma ExtrapolatedBelowReference(p0: real, tempAvg: real, z0: real, z1: real, exp: real -> real)
    requires p0 > 0.0 && tempAvg != 0.0
    requires exp(Exponent(tempAvg, z0, z1)) < 1.0
    ensures Extrapolated(p0, tempAvg, z0, z1, exp) < p0
  {
    var e := exp(Exponent(tempAvg, z0, z1));
    assert p0 - p0 * e == p0 * (1.0 - e);
  }
}
