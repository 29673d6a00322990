/** Wind shear exponent from wind speeds measured at several heights.
    Two sensors use the closed-form log law; more sensors fit a power law
    row by row. The logarithm `ln` and the least-squares fitter `fit` (which
    returns the exponent alpha that best fits value = height^alpha to a list
    of (height, value) pairs) are parameters. */
module Shear {
  import opened MetData

  /** One entry of the height map: a wind-speed column and its sensor height (m). */
  datatype Sensor = Sensor(column: string, height: real)

  /** A table: named columns that all have `rows` cells. */
  datatype Table = Table(rows: nat, columns: map<string, seq<Cell>>)

  predicate WellFormed(t: Table)
  {
    forall c :: c in t.columns ==> |t.columns[c]| == t.rows
  }

  /** Configuration errors of the shear computation. */
  datatype ShearError =
    | TooFewHeights                      // at most one sensor in the height map
    | MissingColumn(name: string)        // a named column is not in the table
    | ReferenceWithoutHeight(name: string) // the reference column has no height
    | ZeroReferenceHeight                // the reference height is 0: normalising the heights divides by it

  // ---------------------------------------------------------------------
  // Lookups

  /** The first name in `names` that is not a column of `t`, if any. */
  function FirstMissing(t: Table, names: seq<string>): (r: Option<string>)
    ensures r.None? <==> forall k :: 0 <= k < |names| ==> names[k] in t.columns
    ensures r.Some? ==> r.value !in t.columns && r.value in names
    ensures r.Some? ==> exists k :: (0 <= k < |names| && names[k] == r.value &&
      forall j :: 0 <= j < k ==> names[j] in t.columns)
  {
    if names == [] then None
    else if names[0] !in t.columns then Some(names[0])
    else FirstMissing(t, names[1..])
  }

  /** Index of the first sensor reading column `name`, if any. */
  function FindSensor(sensors: seq<Sensor>, name: string): (r: Option<nat>)
    ensures r.None? <==> forall k :: 0 <= k < |sensors| ==> sensors[k].column != name
    ensures r.Some? ==> r.value < |sensors| && sensors[r.value].column == name
  {
    if sensors == [] then None
    else if sensors[0].column == name then Some(0)
    else match FindSensor(sensors[1..], name)
      case None => None
      case Some(k) => Some(k + 1)
  }

  function ColumnNames(sensors: seq<Sensor>): seq<string>
  {
    seq(|sensors|, k requires 0 <= k < |sensors| => sensors[k].column)
  }

  /** The sensors' columns of `t`, in height-map order. */
  function SensorColumns(t: Table, sensors: seq<Sensor>): seq<seq<Cell>>
    requires forall k :: 0 <= k < |sensors| ==> sensors[k].column in t.columns
  {
    seq(|sensors|, k requires 0 <= k < |sensors| => t.columns[sensors[k].column])
  }

  // ---------------------------------------------------------------------
  // Two heights: the log law

  /** Log-law exponent of one row; missing when either speed is missing. */
  function LogLawRow(wa: Cell, wb: Cell, ha: real, hb: real, ln: real -> real): Cell
    requires ln(hb) != ln(ha)
  {
    if wa.Missing? || wb.Missing? then Missing
    else Value((ln(wb.v) - ln(wa.v)) / (ln(hb) - ln(ha)))
  }

  /** Log-law exponent of every row from sensor a (column colA at height ha)
      and sensor b (colB at hb). Rows with both speeds present get the alpha
      with ln wb - ln wa = alpha (ln hb - ln ha). */
  function TwoHeightShear(colA: seq<Cell>, colB: seq<Cell>, ha: real, hb: real, ln: real -> real): (r: seq<Cell>)
    requires |colA| == |colB|
    requires ln(hb) != ln(ha)
    ensures |r| == |colA|
    ensures forall t :: 0 <= t < |r| ==> (r[t].Value? <==> colA[t].Value? && colB[t].Value?)
    ensures forall t :: 0 <= t < |r| ==> r[t].Value? ==>
      var a, b := colA[t].v, colB[t].v;
      r[t].v * (ln(hb) - ln(ha)) == ln(b) - ln(a)
  {
    seq(|colA|, t requires 0 <= t < |colA| => LogLawRow(colA[t], colB[t], ha, hb, ln))
  }

  // ---------------------------------------------------------------------
  // More heights: normalisation and the per-row fit

  /** Every sensor height divided by the reference height. */
  function NormalizedHeights(sensors: seq<Sensor>, refHeight: real): (hs: seq<real>)
    requires refHeight != 0.0
    ensures |hs| == |sensors|
    ensures forall k :: 0 <= k < |sensors| ==> hs[k] * refHeight == sensors[k].height
  {
    seq(|sensors|, k requires 0 <= k < |sensors| => sensors[k].height / refHeight)
  }

  /** One speed divided by the reference speed of the same row; missing when
      either is missing. */
  function NormalizedCell(speed: Cell, refSpeed: Cell): (c: Cell)
    requires refSpeed.Value? ==> refSpeed.v != 0.0
    ensures c.Value? <==> speed.Value? && refSpeed.Value?
    ensures c.Value? ==> c.v * refSpeed.v == speed.v
  {
    if speed.Missing? || refSpeed.Missing? then Missing else Value(speed.v / refSpeed.v)
  }

  /** Row `t` of the normalised speed table, one cell per sensor. */
  function NormalizedRow(cols: seq<seq<Cell>>, refCol: seq<Cell>, t: nat): seq<Cell>
    requires t < |refCol|
    requires forall k :: 0 <= k < |cols| ==> |cols[k]| == |refCol|
    requires refCol[t].Value? ==> refCol[t].v != 0.0
  {
    seq(|cols|, k requires 0 <= k < |cols| => NormalizedCell(cols[k][t], refCol[t]))
  }

  /** Number of present cells. */
  function CountPresent(cells: seq<Cell>): (n: nat)
    ensures n <= |cells|
  {
    if cells == [] then 0 else (if cells[0].Value? then 1 else 0) + CountPresent(cells[1..])
  }

  /** No present cell exactly when the count is zero, and every cell present
      exactly when the count is the length. */
  lemma {:induction false} CountPresentExtremes(cells: seq<Cell>)
    ensures CountPresent(cells) == 0 <==> forall k :: 0 <= k < |cells| ==> cells[k].Missing?
    ensures CountPresent(cells) == |cells| <==> forall k :: 0 <= k < |cells| ==> cells[k].Value?
  {
    if cells != [] {
      CountPresentExtremes(cells[1..]);
      assert forall k :: 1 <= k < |cells| ==> cells[1..][k - 1] == cells[k];
    }
  }

  /** The (height, value) pairs whose value is present, in sensor order: the
      missing pairs are dropped. */
  function Survivors(hs: seq<real>, cells: seq<Cell>): (ps: seq<(real, real)>)
    requires |hs| == |cells|
    ensures |ps| == CountPresent(cells)
    ensures forall k :: 0 <= k < |cells| && cells[k].Value? ==> (hs[k], cells[k].v) in ps
    ensures forall p :: p in ps ==> exists k :: 0 <= k < |cells| && cells[k] == Value(p.1) && hs[k] == p.0
    ensures InSensorOrder(hs, cells, ps)
  {
    if cells == [] then []
    else
      var rest := Survivors(hs[1..], cells[1..]);
      assert forall k :: 1 <= k < |cells| ==> hs[1..][k - 1] == hs[k] && cells[1..][k - 1] == cells[k];
      var ps := if cells[0].Value? then [(hs[0], cells[0].v)] + rest else rest;
      InSensorOrderStep(hs, cells, rest, ps);
      ps
  }

  /** The pair of the present cell at index k sits at position "number of
      present cells before k". With the length, this fixes the list. */
  predicate InSensorOrder(hs: seq<real>, cells: seq<Cell>, ps: seq<(real, real)>)
    requires |hs| == |cells|
  {
    forall k :: 0 <= k < |cells| && cells[k].Value? ==>
      CountPresent(cells[..k]) < |ps| && ps[CountPresent(cells[..k])] == (hs[k], cells[k].v)
  }

  lemma InSensorOrderStep(hs: seq<real>, cells: seq<Cell>, rest: seq<(real, real)>, ps: seq<(real, real)>)
    requires |hs| == |cells| > 0
    requires InSensorOrder(hs[1..], cells[1..], rest)
    requires ps == if cells[0].Value? then [(hs[0], cells[0].v)] + rest else rest
    ensures InSensorOrder(hs, cells, ps)
  {
    forall k | 0 <= k < |cells| && cells[k].Value?
      ensures CountPresent(cells[..k]) < |ps| && ps[CountPresent(cells[..k])] == (hs[k], cells[k].v)
    {
      if k == 0 {
        assert cells[..0] == [];
      } else {
        assert cells[..k][1..] == cells[1..][..k - 1];
        assert hs[1..][k - 1] == hs[k] && cells[1..][k - 1] == cells[k];
      }
    }
  }

  /** The policy for one row: at most one surviving pair leaves the row
      missing; otherwise the row gets the fitted exponent. */
  function FitRow(pairs: seq<(real, real)>, fit: seq<(real, real)> -> real): Cell
  {
    if |pairs| <= 1 then Missing else Value(fit(pairs))
  }

  /** The exponent that the multi-height branch gives row `t`. */
  function RowShear(cols: seq<seq<Cell>>, refCol: seq<Cell>, hs: seq<real>,
                    fit: seq<(real, real)> -> real, t: nat): Cell
    requires |cols| == |hs| && t < |refCol|
    requires forall k :: 0 <= k < |cols| ==> |cols[k]| == |refCol|
    requires refCol[t].Value? ==> refCol[t].v != 0.0
  {
    FitRow(Survivors(hs, NormalizedRow(cols, refCol, t)), fit)
  }

  /** Predicate form of the per-row precondition on the reference column. */
  predicate NonZeroReference(refCol: seq<Cell>)
  {
    forall t :: 0 <= t < |refCol| ==> refCol[t] != Value(0.0)
  }

  /** The row loop: start from an all-missing column and fill in, row by row,
      the rows that have at least two surviving pairs. */
  method FitRows(cols: seq<seq<Cell>>, refCol: seq<Cell>, hs: seq<real>, fit: seq<(real, real)> -> real)
    returns (alpha: seq<Cell>)
    requires |cols| == |hs|
    requires forall k :: 0 <= k < |cols| ==> |cols[k]| == |refCol|
    requires NonZeroReference(refCol)
    ensures |alpha| == |refCol|
    ensures forall t :: 0 <= t < |alpha| ==> alpha[t] == RowShear(cols, refCol, hs, fit, t)
  {
    var a := new Cell[|refCol|](_ => Missing);
    for t := 0 to |refCol|
      invariant forall s :: 0 <= s < t ==> a[s] == RowShear(cols, refCol, hs, fit, s)
      invariant forall s :: t <= s < a.Length ==> a[s] == Missing
    {
      var pairs := Survivors(hs, NormalizedRow(cols, refCol, t));
      if |pairs| <= 1 {
        continue;
      }
      a[t] := Value(fit(pairs));
    }
    alpha := a[..];
  }

  // ---------------------------------------------------------------------
  // Dispatch

  /** The height map is a dictionary: no column name appears twice. */
  predicate DistinctColumns(sensors: seq<Sensor>)
  {
    forall i, j :: 0 <= i < j < |sensors| ==> sensors[i].column != sensors[j].column
  }

  /** What the caller must supply: a height map with distinct keys, and no
      element-wise column division by zero once the columns have been looked
      up. Two present sensor columns need distinct log heights; with more
      sensors, every named column present and a non-zero height entry for the
      reference, the reference speeds must be non-zero. Inputs that the source
      rejects with an error are not constrained. */
  predicate ShearDefined(t: Table, sensors: seq<Sensor>, refCol: string, ln: real -> real)
  {
    DistinctColumns(sensors) &&
    (|sensors| == 2 && sensors[0].column in t.columns && sensors[1].column in t.columns ==>
      ln(sensors[1].height) != ln(sensors[0].height)) &&
    (|sensors| > 2 && refCol in t.columns && (forall k :: 0 <= k < |sensors| ==> sensors[k].column in t.columns) &&
     (exists k :: 0 <= k < |sensors| && sensors[k].column == refCol && sensors[k].height != 0.0) ==>
      NonZeroReference(t.columns[refCol]))
  }

  /** The shear result as a function of the inputs. */
  function Shear(t: Table, sensors: seq<Sensor>, refCol: string,
                 ln: real -> real, fit: seq<(real, real)> -> real): Result<seq<Cell>, ShearError>
    requires WellFormed(t)
    requires ShearDefined(t, sensors, refCol, ln)
  {
    if |sensors| <= 1 then Err(TooFewHeights)
    else if |sensors| == 2 then
      var a, b := sensors[0], sensors[1];
      match FirstMissing(t, [b.column, a.column])
      case Some(c) => Err(MissingColumn(c))
      case None =>
        assert [b.column, a.column][1] == a.column;
        Ok(TwoHeightShear(t.columns[a.column], t.columns[b.column], a.height, b.height, ln))
    else
      match FirstMissing(t, ColumnNames(sensors) + [refCol])
      case Some(c) => Err(MissingColumn(c))
      case None =>
        NamesPresent(t, sensors, refCol);
        match FindSensor(sensors, refCol)
        case None => Err(ReferenceWithoutHeight(refCol))
        case Some(k) =>
          if sensors[k].height == 0.0 then Err(ZeroReferenceHeight) else
          var hs := NormalizedHeights(sensors, sensors[k].height);
          Ok(seq(t.rows, r requires 0 <= r < t.rows =>
            RowShear(SensorColumns(t, sensors), t.columns[refCol], hs, fit, r)))
  }

  /** Shear coefficient of every row of `t` for the sensors of the height map
      (in map order), normalising by `refCol` when there are more than two.
      A call that omits the reference column passes its default, "empty". */
  method ComputeShear(t: Table, sensors: seq<Sensor>, refCol: string,
                      ln: real -> real, fit: seq<(real, real)> -> real)
    returns (r: Result<seq<Cell>, ShearError>)
    requires WellFormed(t)
    requires ShearDefined(t, sensors, refCol, ln)
    ensures r == Shear(t, sensors, refCol, ln, fit)
  {
    if |sensors| <= 1 {
      return Err(TooFewHeights);
    } else if |sensors| == 2 {
      var a, b := sensors[0], sensors[1];
      var missing := FirstMissing(t, [b.column, a.column]);
      if missing.Some? {
        return Err(MissingColumn(missing.value));
      }
      assert [b.column, a.column][1] == a.column;
      return Ok(TwoHeightShear(t.columns[a.column], t.columns[b.column], a.height, b.height, ln));
    }
    var missing := FirstMissing(t, ColumnNames(sensors) + [refCol]);
    if missing.Some? {
      return Err(MissingColumn(missing.value));
    }
    NamesPresent(t, sensors, refCol);
    var k := FindSensor(sensors, refCol);
    if k.None? {
      return Err(ReferenceWithoutHeight(refCol));
    }
    if sensors[k.value].height == 0.0 {
      return Err(ZeroReferenceHeight);
    }
    var hs := NormalizedHeights(sensors, sensors[k.value].height);
    var cols := SensorColumns(t, sensors);
    var alpha := FitRows(cols, t.columns[refCol], hs, fit);
    assert alpha == seq(t.rows, row requires 0 <= row < t.rows =>
      RowShear(SensorColumns(t, sensors), t.columns[refCol], hs, fit, row));
    r := Ok(alpha);
  }

  /** When no name of the multi-height branch is missing, every sensor column
      and the reference column are in the table. */
  lemma NamesPresent(t: Table, sensors: seq<Sensor>, refCol: string)
    requires FirstMissing(t, ColumnNames(sensors) + [refCol]).None?
    ensures forall k :: 0 <= k < |sensors| ==> sensors[k].column in t.columns
    ensures refCol in t.columns
  {
    var names := ColumnNames(sensors) + [refCol];
    assert refCol == names[|sensors|];
    forall k | 0 <= k < |sensors| ensures sensors[k].column in t.columns {
      assert names[k] == sensors[k].column;
    }
  }

  // ---------------------------------------------------------------------
  // Properties

  /** The shear computation fails for want of heights exactly when the height
      map has at most one entry. */
  lemma TooFewHeightsExactly(t: Table, sensors: seq<Sensor>, refCol: string,
                             ln: real -> real, fit: seq<(real, real)> -> real)
    requires WellFormed(t) && ShearDefined(t, sensors, refCol, ln)
    ensures Shear(t, sensors, refCol, ln, fit) == Err(TooFewHeights) <==> |sensors| <= 1
  {
  }

  /** With two sensors no fitting is done: each row is the log-law exponent of
      the first two map entries, in map order, and is missing exactly when one
      of the two speeds is. A missing column is reported instead. */
  lemma TwoHeightsUseLogLaw(t: Table, sensors: seq<Sensor>, refCol: string,
                            ln: real -> real, fit: seq<(real, real)> -> real)
    requires WellFormed(t) && ShearDefined(t, sensors, refCol, ln)
    requires |sensors| == 2
    ensures var r := Shear(t, sensors, refCol, ln, fit);
      r.Err? <==> sensors[0].column !in t.columns || sensors[1].column !in t.columns
    ensures var r := Shear(t, sensors, refCol, ln, fit);
      r.Ok? ==>
        var colA, colB := t.columns[sensors[0].column], t.columns[sensors[1].column];
        var ha, hb := sensors[0].height, sensors[1].height;
        |r.value| == t.rows &&
        forall row :: 0 <= row < t.rows ==>
          (r.value[row].Value? <==> colA[row].Value? && colB[row].Value?) &&
          (r.value[row].Value? ==> r.value[row].v * (ln(hb) - ln(ha)) == ln(colB[row].v) - ln(colA[row].v))
  {
    var names := [sensors[1].column, sensors[0].column];
    assert names[0] == sensors[1].column && names[1] == sensors[0].column;
  }

  /** The cells of row `t` across the sensor columns. */
  function RowCells(cols: seq<seq<Cell>>, t: nat): seq<Cell>
    requires forall k :: 0 <= k < |cols| ==> t < |cols[k]|
  {
    seq(|cols|, k requires 0 <= k < |cols| => cols[k][t])
  }

  /** Normalising a row keeps the present speeds present when the reference
      speed is present, and makes every cell missing when it is not. */
  lemma {:induction false} CountPresentNormalized(row: seq<Cell>, normalized: seq<Cell>, refSpeed: Cell)
    requires |normalized| == |row|
    requires refSpeed.Value? ==> refSpeed.v != 0.0
    requires forall k :: 0 <= k < |row| ==> normalized[k] == NormalizedCell(row[k], refSpeed)
    ensures CountPresent(normalized) == if refSpeed.Missing? then 0 else CountPresent(row)
  {
    if row != [] {
      CountPresentNormalized(row[1..], normalized[1..], refSpeed);
    }
  }

  /** The per-row policy of the multi-height branch: a row whose reference
      speed is missing, or with at most one present speed, stays missing;
      any other row gets exactly the fitter's value for its surviving pairs. */
  lemma MultiHeightRowPolicy(cols: seq<seq<Cell>>, refCol: seq<Cell>, hs: seq<real>,
                             fit: seq<(real, real)> -> real, t: nat)
    requires |cols| == |hs| && t < |refCol|
    requires forall k :: 0 <= k < |cols| ==> |cols[k]| == |refCol|
    requires refCol[t].Value? ==> refCol[t].v != 0.0
    ensures refCol[t].Missing? ==> RowShear(cols, refCol, hs, fit, t) == Missing
    ensures refCol[t].Value? ==>
      (RowShear(cols, refCol, hs, fit, t) == Missing <==> CountPresent(RowCells(cols, t)) <= 1)
    ensures RowShear(cols, refCol, hs, fit, t) != Missing ==>
      RowShear(cols, refCol, hs, fit, t) == Value(fit(Survivors(hs, NormalizedRow(cols, refCol, t))))
  {
    CountPresentNormalized(RowCells(cols, t), NormalizedRow(cols, refCol, t), refCol[t]);
  }

  /** Each row's result depends only on that row: two inputs that agree on a
      row's speeds and reference speed agree on that row's exponent. */
  lemma RowShearIsRowLocal(cols1: seq<seq<Cell>>, refCol1: seq<Cell>, t1: nat,
                           cols2: seq<seq<Cell>>, refCol2: seq<Cell>, t2: nat,
                           hs: seq<real>, fit: seq<(real, real)> -> real)
    requires |cols1| == |hs| && t1 < |refCol1| && forall k :: 0 <= k < |cols1| ==> |cols1[k]| == |refCol1|
    requires |cols2| == |hs| && t2 < |refCol2| && forall k :: 0 <= k < |cols2| ==> |cols2[k]| == |refCol2|
    requires refCol1[t1].Value? ==> refCol1[t1].v != 0.0
    requires RowCells(cols1, t1) == RowCells(cols2, t2) && refCol1[t1] == refCol2[t2]
    ensures RowShear(cols1, refCol1, hs, fit, t1) == RowShear(cols2, refCol2, hs, fit, t2)
  {
    var n1, n2 := NormalizedRow(cols1, refCol1, t1), NormalizedRow(cols2, refCol2, t2);
    forall k | 0 <= k < |cols1| ensures n1[k] == n2[k] {
      assert RowCells(cols1, t1)[k] == RowCells(cols2, t2)[k];
    }
    assert n1 == n2;
  }

  /** The reference sensor's normalised height is 1. */
  lemma ReferenceHeightIsOne(sensors: seq<Sensor>, k: nat)
    requires k < |sensors| && sensors[k].height != 0.0
    ensures NormalizedHeights(sensors, sensors[k].height)[k] == 1.0
  {
    var h := sensors[k].height;
    var hs := NormalizedHeights(sensors, h);
    assert hs == seq(|sensors|, j requires 0 <= j < |sensors| => sensors[j].height / h);
    assert hs[k] == h / h;
  }

  /** With more than two sensors, the result is, in this order: a missing
      sensor or reference column; a reference column without a height; a zero
      reference height; or, exactly when none of these applies, one exponent
      per row, by the per-row policy, with heights normalised by the reference
      sensor's height. */
  lemma MultiHeightOutcome(t: Table, sensors: seq<Sensor>, refCol: string,
                           ln: real -> real, fit: seq<(real, real)> -> real)
    requires WellFormed(t) && ShearDefined(t, sensors, refCol, ln)
    requires |sensors| > 2
    ensures var r := Shear(t, sensors, refCol, ln, fit);
      r.Err? && r.error.MissingColumn? <==>
        refCol !in t.columns || exists k :: 0 <= k < |sensors| && sensors[k].column !in t.columns
    ensures var r := Shear(t, sensors, refCol, ln, fit);
      r == Err(ReferenceWithoutHeight(refCol)) <==>
        refCol in t.columns && (forall k :: 0 <= k < |sensors| ==> sensors[k].column in t.columns) &&
        forall k :: 0 <= k < |sensors| ==> sensors[k].column != refCol
    ensures var r := Shear(t, sensors, refCol, ln, fit);
      r == Err(ZeroReferenceHeight) <==>
        refCol in t.columns && (forall k :: 0 <= k < |sensors| ==> sensors[k].column in t.columns) &&
        exists k :: 0 <= k < |sensors| && sensors[k].column == refCol && sensors[k].height == 0.0
    ensures var r := Shear(t, sensors, refCol, ln, fit);
      r.Ok? <==>
        refCol in t.columns && (forall k :: 0 <= k < |sensors| ==> sensors[k].column in t.columns) &&
        exists k :: 0 <= k < |sensors| && sensors[k].column == refCol && sensors[k].height != 0.0
    ensures var r := Shear(t, sensors, refCol, ln, fit);
      r.Ok? ==> exists k :: (0 <= k < |sensors| && sensors[k].column == refCol &&
        var hs := NormalizedHeights(sensors, sensors[k].height);
        hs[k] == 1.0 && |r.value| == t.rows &&
        forall row :: 0 <= row < t.rows ==>
          r.value[row] == RowShear(SensorColumns(t, sensors), t.columns[refCol], hs, fit, row))
  {
    var names := ColumnNames(sensors) + [refCol];
    assert names[|sensors|] == refCol;
    assert forall k :: 0 <= k < |sensors| ==> names[k] == sensors[k].column;
    var r := Shear(t, sensors, refCol, ln, fit);
    match FindSensor(sensors, refCol)
    case None =>
    case Some(k) =>
      // The height map has distinct keys, so k is the only entry for refCol.
      assert forall j :: 0 <= j < |sensors| && sensors[j].column == refCol ==> j == k;
      if r.Ok? {
        ReferenceHeightIsOne(sensors, k);
      }
  }
}
