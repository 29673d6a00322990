/** Shared vocabulary of the meteorological transforms: column cells, result
    types, the physical constants and the whole-column mean. */
module MetData {

  /** One cell of a data column: a number, or the missing-value marker. */
  datatype Cell = Missing | Value(v: real)

  datatype Option<T> = None | Some(value: T)

  /** A call that validates its inputs first either fails as a whole or
      produces its whole output. */
  datatype Result<T, E> = Ok(value: T) | Err(error: E)

  /** The data-validity error: a physically non-negative input holds a
      negative value. */
  datatype ValidityError = NegativeData

  /** Gas constant for dry air, J/(kg K). */
  const R_DRY_AIR: real := 287.058

  /** Standard acceleration of gravity, m/s^2. */
  const GRAVITY: real := 9.80665

  /** The double closest to pi, as used for the degree conversion. */
  const PI: real := 3.141592653589793

  /** Sum of a column, adding the rows front to back. */
  function Sum(s: seq<real>): real
  {
    if s == [] then 0.0 else s[0] + Sum(s[1..])
  }

  /** Arithmetic mean of a non-empty column. */
  function Mean(s: seq<real>): real
    requires |s| > 0
  {
    Sum(s) / |s| as real
  }

  lemma {:induction false} SumOfConstant(s: seq<real>, c: real)
    requires forall i :: 0 <= i < |s| ==> s[i] == c
    ensures Sum(s) == |s| as real * c
  {
    if s != [] {
      SumOfConstant(s[1..], c);
    }
  }

  /** The mean of a column whose rows all hold `c` is `c`. */
  lemma MeanOfConstant(s: seq<real>, c: real)
    requires |s| > 0
    requires forall i :: 0 <= i < |s| ==> s[i] == c
    ensures Mean(s) == c
  {
    SumOfConstant(s, c);
  }
}
