/**
 * The rows of the calibration history files (`Run  obj.function  <params>`)
 * and the two reductions the scripts take over their objective column:
 * pandas' `Series.min()` and numpy's `nanargmin`.
 */
module SearchRecords {
  import opened Wrappers

  /** One history row: the run number, the objective value and one value per template parameter. */
  datatype Record = Record(run: int, obj: real, params: seq<real>)

  /** The objective column. */
  function Objectives(rows: seq<Record>): (r: seq<real>)
    ensures |r| == |rows| && forall i :: 0 <= i < |rows| ==> r[i] == rows[i].obj
  {
    seq(|rows|, i requires 0 <= i < |rows| => rows[i].obj)
  }

  /** `Series.min()`: the least value; `None` for an empty column (pandas gives NaN). */
  function MinObj(objs: seq<real>): (r: Option<real>)
    ensures r.None? <==> |objs| == 0
    ensures r.Some? ==> r.value in objs && forall i :: 0 <= i < |objs| ==> r.value <= objs[i]
    decreases |objs|
  {
    if |objs| == 0 then None
    else
      var init := objs[..|objs| - 1];
      var last := objs[|objs| - 1];
      assert forall i :: 0 <= i < |init| ==> objs[i] == init[i];
      match MinObj(init)
      case None => Some(last)
      case Some(m) => Some(if last < m then last else m)
  }

  /** `x <= column.min()`, which is false when the column is empty (a comparison with NaN). */
  predicate AtMostMin(x: real, objs: seq<real>) {
    match MinObj(objs)
    case None => false
    case Some(m) => x <= m
  }

  /** A value is at most the minimum exactly when it is at most every value of a non-empty column. */
  lemma AtMostMinIff(x: real, objs: seq<real>)
    ensures AtMostMin(x, objs) <==> |objs| > 0 && forall i :: 0 <= i < |objs| ==> x <= objs[i]
  {
  }

  /** `np.nanargmin` over a column without NaN: the first index holding the least value; `None` (ValueError) for an empty one. */
  function FirstArgMin(objs: seq<real>): (r: Option<nat>)
    ensures r.None? <==> |objs| == 0
    ensures r.Some? ==> r.value < |objs|
    ensures r.Some? ==> forall j :: 0 <= j < |objs| ==> objs[r.value] <= objs[j]
    ensures r.Some? ==> forall j :: 0 <= j < r.value ==> objs[r.value] < objs[j]
    decreases |objs|
  {
    if |objs| == 0 then None
    else
      var init := objs[..|objs| - 1];
      assert forall i :: 0 <= i < |init| ==> objs[i] == init[i];
      match FirstArgMin(init)
      case None => Some(0)
      case Some(k) => if objs[|objs| - 1] < objs[k] then Some(|objs| - 1) else Some(k)
  }

  /** The first minimum is the minimum. */
  lemma FirstArgMinIsMin(objs: seq<real>)
    requires |objs| > 0
    ensures MinObj(objs) == Some(objs[FirstArgMin(objs).value])
  {
  }
}
