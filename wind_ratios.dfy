/** Density-adjusted wind speed and turbulence intensity: element-wise ratios
    over the columns of one table. The cube root is a parameter `cbrt`. */
module WindRatios {
  import opened MetData

  /** Wind speed of one row scaled by the cube root of its density relative
      to the sample mean density. */
  function AdjustedSpeed(speed: real, density: real, rhoMean: real, cbrt: real -> real): real
    requires rhoMean != 0.0
  {
    speed * cbrt(density / rhoMean)
  }

  /** Density-adjusted wind speed of each row. The mean density is taken once
      over the whole density column. */
  function AirDensityAdjustedWindSpeed(speed: seq<real>, density: seq<real>, cbrt: real -> real): (r: seq<real>)
    requires |speed| == |density|
    requires |density| > 0 ==> Mean(density) != 0.0
    ensures |r| == |speed|
    ensures forall i :: 0 <= i < |r| ==> r[i] == AdjustedSpeed(speed[i], density[i], Mean(density), cbrt)
  {
    if |density| == 0 then []
    else
      var rhoMean := Mean(density);
      seq(|speed|, i requires 0 <= i < |speed| => AdjustedSpeed(speed[i], density[i], rhoMean, cbrt))
  }

  /** A row's adjusted speed depends only on that row's speed and density and
      on the mean density: two tables that agree on these agree on the row. */
  lemma AdjustedSpeedIsRowLocal(speed1: seq<real>, density1: seq<real>, speed2: seq<real>, density2: seq<real>,
                                cbrt: real -> real, i: int, j: int)
    requires |speed1| == |density1| && |speed2| == |density2|
    requires 0 <= i < |speed1| && 0 <= j < |speed2|
    requires Mean(density1) != 0.0 && Mean(density1) == Mean(density2)
    requires speed1[i] == speed2[j] && density1[i] == density2[j]
    ensures AirDensityAdjustedWindSpeed(speed1, density1, cbrt)[i] == AirDensityAdjustedWindSpeed(speed2, density2, cbrt)[j]
  {
  }

  /** Given cbrt(1) = 1, a row whose density equals the mean keeps its speed. */
  lemma MeanDensityKeepsSpeed(speed: seq<real>, density: seq<real>, cbrt: real -> real, i: int)
    requires |speed| == |density| && 0 <= i < |speed|
    requires Mean(density) != 0.0 && density[i] == Mean(density)
    requires cbrt(1.0) == 1.0
    ensures AirDensityAdjustedWindSpeed(speed, density, cbrt)[i] == speed[i]
  {
    var d, m := density[i], Mean(density);
    assert d / m == 1.0;
  }

  /** Given cbrt(1) = 1, a uniform non-zero density leaves every wind speed unchanged. */
  lemma UniformDensityKeepsSpeed(speed: seq<real>, density: seq<real>, c: real, cbrt: real -> real)
    requires |speed| == |density| && |density| > 0
    requires c != 0.0 && forall i :: 0 <= i < |density| ==> density[i] == c
    requires cbrt(1.0) == 1.0
    ensures Mean(density) == c
    ensures AirDensityAdjustedWindSpeed(speed, density, cbrt) == speed
  {
    MeanOfConstant(density, c);
    var r := AirDensityAdjustedWindSpeed(speed, density, cbrt);
    forall i | 0 <= i < |speed| ensures r[i] == speed[i] {
      MeanDensityKeepsSpeed(speed, density, cbrt, i);
    }
  }

  /** Turbulence intensity of each row: standard deviation over mean speed. */
  function ComputeTurbulenceIntensity(mean: seq<real>, std: seq<real>): (r: seq<real>)
    requires |mean| == |std|
    requires forall i :: 0 <= i < |mean| ==> mean[i] != 0.0
    ensures |r| == |mean|
    ensures forall i :: 0 <= i < |r| ==> r[i] * mean[i] == std[i]
  {
    seq(|mean|, i requires 0 <= i < |mean| => std[i] / mean[i])
  }

  /** Scaling a row's deviation and mean by the same non-zero factor leaves
      its turbulence intensity unchanged (the ratio is unitless). */
  lemma TurbulenceIntensityScaleFree(mean: seq<real>, std: seq<real>, k: real)
    requires |mean| == |std| && k != 0.0
    requires forall i :: 0 <= i < |mean| ==> mean[i] != 0.0
    ensures ComputeTurbulenceIntensity(
              seq(|mean|, i requires 0 <= i < |mean| => k * mean[i]),
              seq(|std|, i requires 0 <= i < |std| => k * std[i])) == ComputeTurbulenceIntensity(mean, std)
  {
    var scaledMean := seq(|mean|, i requires 0 <= i < |mean| => k * mean[i]);
    var scaledStd := seq(|std|, i requires 0 <= i < |std| => k * std[i]);
    var r1 := ComputeTurbulenceIntensity(scaledMean, scaledStd);
    var r2 := ComputeTurbulenceIntensity(mean, std);
    forall i | 0 <= i < |mean| ensures r1[i] == r2[i] {
      var m, s := mean[i], std[i];
      assert r1[i] * (k * m) == k * s;
      assert r2[i] * m == s;
      assert k * (r1[i] * m) == k * (r2[i] * m);
    }
  }
}
