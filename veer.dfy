/** Wind veer: the change of wind direction with height, in degrees per
    metre, after folding each direction difference into (-180, 180]. */
module Veer {

  /** The first masked update: a difference above 180 is lowered by 360. */
  function FoldDown(d: real): real
  {
    if d > 180.0 then d - 360.0 else d
  }

  /** The second masked update: a difference at or below -180 is raised by 360. */
  function FoldUp(d: real): real
  {
    if d <= -180.0 then d + 360.0 else d
  }

  /** The two updates, applied in order. */
  function NormalizedDelta(d: real): real
  {
    FoldUp(FoldDown(d))
  }

  /** Element-wise first update over a column. */
  function FoldDownAll(s: seq<real>): seq<real>
  {
    seq(|s|, i requires 0 <= i < |s| => FoldDown(s[i]))
  }

  /** Element-wise second update over a column. */
  function FoldUpAll(s: seq<real>): seq<real>
  {
    seq(|s|, i requires 0 <= i < |s| => FoldUp(s[i]))
  }

  /** A difference of two directions in [0, 360] lands in (-180, 180], and
      differs from the raw difference by 0, +360 or -360. */
  lemma NormalizedDeltaInRange(a: real, b: real)
    requires 0.0 <= a <= 360.0 && 0.0 <= b <= 360.0
    ensures -180.0 < NormalizedDelta(b - a) <= 180.0
    ensures NormalizedDelta(b - a) - (b - a) in {0.0, 360.0, -360.0}
  {
  }

  /** Each difference is corrected at most once: one lowered by the first
      update is never raised by the second, and one already in (-180, 180]
      is left untouched. */
  lemma CorrectedAtMostOnce(d: real)
    ensures d > 180.0 ==> NormalizedDelta(d) == d - 360.0
    ensures d <= -180.0 ==> NormalizedDelta(d) == d + 360.0
    ensures -180.0 < d <= 180.0 ==> NormalizedDelta(d) == d
  {
  }

  /** Across north: from 350 degrees at 10 m to 10 degrees at 30 m the raw
      difference -340 folds to 20, a veer of 1 degree per metre. */
  lemma VeerAcrossNorth()
    ensures NormalizedDelta(10.0 - 350.0) == 20.0
    ensures NormalizedDelta(10.0 - 350.0) / (30.0 - 10.0) == 1.0
  {
  }

  /** In-place form of FoldDownAll: `delta[delta > 180] -= 360`. */
  method FoldDownInPlace(delta: array<real>)
    modifies delta
    ensures delta[..] == FoldDownAll(old(delta[..]))
  {
    for i := 0 to delta.Length
      invariant forall k :: 0 <= k < i ==> delta[k] == FoldDown(old(delta[k]))
      invariant forall k :: i <= k < delta.Length ==> delta[k] == old(delta[k])
    {
      if delta[i] > 180.0 {
        delta[i] := delta[i] - 360.0;
      }
    }
  }

  /** In-place form of FoldUpAll: `delta[delta <= -180] += 360`. */
  method FoldUpInPlace(delta: array<real>)
    modifies delta
    ensures delta[..] == FoldUpAll(old(delta[..]))
  {
    for i := 0 to delta.Length
      invariant forall k :: 0 <= k < i ==> delta[k] == FoldUp(old(delta[k]))
      invariant forall k :: i <= k < delta.Length ==> delta[k] == old(delta[k])
    {
      if delta[i] <= -180.0 {
        delta[i] := delta[i] + 360.0;
      }
    }
  }

  /** Veer of each row between direction columns `dirA` at `heightA` and
      `dirB` at `heightB`. */
  method ComputeVeer(dirA: seq<real>, heightA: real, dirB: seq<real>, heightB: real)
    returns (veer: seq<real>)
    requires |dirA| == |dirB|
    requires heightB != heightA
    ensures |veer| == |dirA|
    ensures forall i :: 0 <= i < |veer| ==>
      veer[i] * (heightB - heightA) == NormalizedDelta(dirB[i] - dirA[i])
    ensures forall i :: 0 <= i < |veer| ==> 0.0 <= dirA[i] <= 360.0 && 0.0 <= dirB[i] <= 360.0 ==>
      -180.0 < veer[i] * (heightB - heightA) <= 180.0
  {
    var delta := new real[|dirA|](i requires 0 <= i < |dirA| => dirB[i] - dirA[i]);
    FoldDownInPlace(delta);
    FoldUpInPlace(delta);
    var dh := heightB - heightA;
    veer := seq(delta.Length, i requires 0 <= i < delta.Length reads delta => delta[i] / dh);
    forall i | 0 <= i < |veer|
      ensures veer[i] * dh == NormalizedDelta(dirB[i] - dirA[i])
      ensures 0.0 <= dirA[i] <= 360.0 && 0.0 <= dirB[i] <= 360.0 ==> -180.0 < veer[i] * dh <= 180.0
    {
      var a, b, d := dirA[i], dirB[i], delta[i];
      assert d == NormalizedDelta(b - a);
      assert veer[i] * dh == d;
      if 0.0 <= a <= 360.0 && 0.0 <= b <= 360.0 {
        NormalizedDeltaInRange(a, b);
      }
    }
  }
}
