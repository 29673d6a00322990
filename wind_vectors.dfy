/** Conversions between wind direction and the (u, v) wind vector components.
    The trigonometric functions are parameters: `atan2(u, v)` in radians, and
    `sinDeg`, `cosDeg` the sine and cosine of an angle given in degrees. */
module WindVectors {
  import opened MetData

  /** Direction in degrees before the 360 -> 0 collapse: 180 + atan2(u, v) * 180 / pi. */
  function RawDirection(u: real, v: real, atan2: (real, real) -> real): real
  {
    180.0 + atan2(u, v) * 180.0 / PI
  }

  /** The masked update that sets every entry equal to 360 to 0. */
  function FullTurnToZero(wd: seq<real>): (r: seq<real>)
    ensures |r| == |wd|
    ensures forall i :: 0 <= i < |r| ==> r[i] != 360.0
    ensures forall i :: 0 <= i < |r| ==> wd[i] == 360.0 ==> r[i] == 0.0
    ensures forall i :: 0 <= i < |r| ==> wd[i] != 360.0 ==> r[i] == wd[i]
  {
    seq(|wd|, i requires 0 <= i < |wd| => if wd[i] == 360.0 then 0.0 else wd[i])
  }

  /** A column inside [0, 360] lands inside [0, 360) after the collapse. */
  lemma FullTurnToZeroInRange(wd: seq<real>)
    requires forall i :: 0 <= i < |wd| ==> 0.0 <= wd[i] <= 360.0
    ensures forall i :: 0 <= i < |wd| ==> 0.0 <= FullTurnToZero(wd)[i] < 360.0
  {
  }

  /** An angle returned by atan2 in [-pi, pi] gives a raw direction in [0, 360]. */
  lemma RawDirectionInRange(u: real, v: real, atan2: (real, real) -> real)
    requires -PI <= atan2(u, v) <= PI
    ensures 0.0 <= RawDirection(u, v, atan2) <= 360.0
  {
  }

  /** In-place form of FullTurnToZero, over the direction buffer. */
  method CollapseFullTurn(wd: array<real>)
    modifies wd
    ensures wd[..] == FullTurnToZero(old(wd[..]))
  {
    for i := 0 to wd.Length
      invariant forall k :: 0 <= k < i ==> wd[k] == (if old(wd[k]) == 360.0 then 0.0 else old(wd[k]))
      invariant forall k :: i <= k < wd.Length ==> wd[k] == old(wd[k])
    {
      if wd[i] == 360.0 {
        wd[i] := 0.0;
      }
    }
  }

  /** Wind direction (degrees) of each row's (u, v) pair. */
  method ComputeWindDirection(u: seq<real>, v: seq<real>, atan2: (real, real) -> real)
    returns (wd: seq<real>)
    requires |u| == |v|
    ensures |wd| == |u|
    ensures forall i :: 0 <= i < |wd| ==> wd[i] != 360.0
    ensures forall i :: 0 <= i < |wd| ==>
      wd[i] == (if RawDirection(u[i], v[i], atan2) == 360.0 then 0.0 else RawDirection(u[i], v[i], atan2))
    ensures (forall x, y :: -PI <= atan2(x, y) <= PI) ==>
      forall i :: 0 <= i < |wd| ==> 0.0 <= wd[i] < 360.0
  {
    var buf := new real[|u|](i requires 0 <= i < |u| => RawDirection(u[i], v[i], atan2));
    ghost var raw := buf[..];
    CollapseFullTurn(buf);
    wd := buf[..];
    if forall x, y :: -PI <= atan2(x, y) <= PI {
      forall i | 0 <= i < |u| ensures 0.0 <= raw[i] <= 360.0 {
        RawDirectionInRange(u[i], v[i], atan2);
      }
      FullTurnToZeroInRange(raw);
    }
  }

  /** Zonal component of one row: -speed * sin(direction), rounded. */
  function UComponent(speed: real, dirDeg: real, sinDeg: real -> real, round10: real -> real): real
  {
    round10(-(speed * sinDeg(dirDeg)))
  }

  /** Meridional component of one row: -speed * cos(direction), rounded. */
  function VComponent(speed: real, dirDeg: real, cosDeg: real -> real, round10: real -> real): real
  {
    round10(-(speed * cosDeg(dirDeg)))
  }

  /** The (u, v) components of each row, each rounded by `round10` (rounding
      to ten decimal places). Any negative speed or direction rejects the
      whole call. */
  function ComputeUVComponents(speed: seq<real>, dir: seq<real>,
                               sinDeg: real -> real, cosDeg: real -> real,
                               round10: real -> real): (r: Result<(seq<real>, seq<real>), ValidityError>)
    requires |speed| == |dir|
    ensures r.Err? <==> exists i :: 0 <= i < |speed| && (speed[i] < 0.0 || dir[i] < 0.0)
    ensures r.Ok? ==> |r.value.0| == |speed| && |r.value.1| == |speed|
    ensures r.Ok? ==> forall i :: 0 <= i < |speed| ==>
      r.value.0[i] == UComponent(speed[i], dir[i], sinDeg, round10) &&
      r.value.1[i] == VComponent(speed[i], dir[i], cosDeg, round10)
  {
    if (exists i :: 0 <= i < |speed| && speed[i] < 0.0) || (exists i :: 0 <= i < |dir| && dir[i] < 0.0) then
      Err(NegativeData)
    else
      Ok((seq(|speed|, i requires 0 <= i < |speed| => UComponent(speed[i], dir[i], sinDeg, round10)),
          seq(|speed|, i requires 0 <= i < |speed| => VComponent(speed[i], dir[i], cosDeg, round10))))
  }

  lemma SquaredNorm(s: real, a: real, b: real)
    requires a * a + b * b == 1.0
    ensures -(s * a) * -(s * a) + -(s * b) * -(s * b) == s * s
  {
  }

  /** Without rounding, the components of a valid column keep the wind speed
      as their Euclidean norm, row by row. */
  lemma ComponentsKeepSpeed(speed: seq<real>, dir: seq<real>, sinDeg: real -> real, cosDeg: real -> real)
    requires |speed| == |dir|
    requires forall i :: 0 <= i < |speed| ==> speed[i] >= 0.0 && dir[i] >= 0.0
    requires forall x :: sinDeg(x) * sinDeg(x) + cosDeg(x) * cosDeg(x) == 1.0
    ensures ComputeUVComponents(speed, dir, sinDeg, cosDeg, x => x).Ok?
    ensures forall i :: 0 <= i < |speed| ==>
      var uv := ComputeUVComponents(speed, dir, sinDeg, cosDeg, x => x).value;
      uv.0[i] * uv.0[i] + uv.1[i] * uv.1[i] == speed[i] * speed[i]
  {
    var uv := ComputeUVComponents(speed, dir, sinDeg, cosDeg, x => x).value;
    forall i | 0 <= i < |speed|
      ensures uv.0[i] * uv.0[i] + uv.1[i] * uv.1[i] == speed[i] * speed[i]
    {
      var s, d := speed[i], dir[i];
      SquaredNorm(s, sinDeg(d), cosDeg(d));
    }
  }
}
