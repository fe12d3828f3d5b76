/**
 * Numeric scaling: the fitted scaler receives the three numeric columns, in
 * their declared order, and its output row is written back over them.
 */
module Scaling {
  import opened Frame

  /** The columns handed to the scaler, in this order. */
  const NumFeatures: seq<string> := ["miles", "car_age", "engine_size"]

  /** The fitted scaler's `transform` on one row: a row of floats, or a refusal. */
  type Scaler = seq<Value> -> Result<seq<real>, string>

  /**
   * `df[NumFeatures] = scaler.transform(df[NumFeatures])`: fails when a
   * numeric column is absent, when the scaler refuses the row, or when its
   * output row is not three wide; otherwise exactly the three numeric
   * columns are replaced by the scaler's output and every other column
   * keeps its (already encoded) value.
   */
  function Scale(frame: Record, scaler: Scaler): (r: Result<Record, Failure>)
    ensures Missing(frame, NumFeatures) != {} ==> r == Err(MissingColumns(Missing(frame, NumFeatures)))
    ensures r.Ok? <==>
      && Missing(frame, NumFeatures) == {}
      && scaler(Select(frame, NumFeatures).value).Ok?
      && |scaler(Select(frame, NumFeatures).value).value| == |NumFeatures|
    ensures r.Ok? ==> r.value.Keys == frame.Keys
    ensures r.Ok? ==> forall col :: col in frame && col !in NumFeatures ==> r.value[col] == frame[col]
    ensures r.Ok? ==>
      var out := scaler(Select(frame, NumFeatures).value).value;
      forall i :: 0 <= i < |NumFeatures| ==> r.value[NumFeatures[i]] == Float(out[i])
  {
    match Select(frame, NumFeatures)
    case Err(e) => Err(e)
    case Ok(row) =>
      match scaler(row)
      case Err(message) => Err(ScalerError(message))
      case Ok(out) =>
        if |out| != |NumFeatures| then Err(ShapeMismatch(|out|))
        else Ok(frame["miles" := Float(out[0])]["car_age" := Float(out[1])]["engine_size" := Float(out[2])])
  }
}
