/**
 * The prediction handler: encode, scale, reorder by the feature manifest,
 * score, round, and turn any failure on the way into an error response.
 */
module Prediction {
  import opened Frame
  import opened Request
  import opened Encoding
  import opened Scaling
  import opened Rounding

  /** The fitted regressor's `predict` on one row: a score, or a refusal. */
  type Model = seq<Value> -> Result<real, string>

  /** The artifacts loaded once at start-up and only read afterwards. */
  datatype Artifacts = Artifacts(
    encoders: seq<Encoder>,
    scaler: Scaler,
    model: Model,
    featureOrder: seq<string>)

  /** The response body: `{"predicted_price": p}` or `{"error": ...}`. */
  datatype Response = PredictedPrice(price: real) | Error(failure: Failure)

  /** The request frame after encoding. */
  function EncodedFrame(car: CarFeatures, art: Artifacts): Record {
    Encoded(ToRecord(car), art.encoders)
  }

  /** The row handed to the scaler: the three numeric columns of the encoded frame. */
  function ScalerInput(car: CarFeatures, art: Artifacts): seq<Value> {
    var f := EncodedFrame(car, art);
    [f["miles"], f["car_age"], f["engine_size"]]
  }

  /** Encoding, scaling and reordering: the row the regressor scores. */
  function FeatureVector(car: CarFeatures, art: Artifacts): Result<seq<Value>, Failure> {
    match Scale(EncodedFrame(car, art), art.scaler)
    case Err(e) => Err(e)
    case Ok(scaled) => Select(scaled, art.featureOrder)
  }

  /** The whole handler as one function of the request and the artifacts. */
  function Predict(car: CarFeatures, art: Artifacts): Response {
    match FeatureVector(car, art)
    case Err(e) => Error(e)
    case Ok(row) =>
      match art.model(row)
      case Err(message) => Error(ModelError(message))
      case Ok(score) => PredictedPrice(RoundHundreds(score) as real)
  }

  /** The handler: every stage's failure becomes the error response. */
  method PredictPrice(car: CarFeatures, art: Artifacts) returns (resp: Response)
    requires DistinctColumns(art.encoders)
    ensures resp == Predict(car, art)
  {
    var frame := EncodeCategoricals(ToRecord(car), art.encoders);
    var scaled := Scale(frame, art.scaler);
    if scaled.Err? {
      return Error(scaled.error);
    }
    var row := Select(scaled.value, art.featureOrder);
    if row.Err? {
      return Error(row.error);
    }
    var score := art.model(row.value);
    if score.Err? {
      return Error(ModelError(score.error));
    }
    resp := PredictedPrice(RoundHundreds(score.value) as real);
  }

  /** The encoded frame of a request has exactly the schema's columns. */
  lemma EncodedFrameColumns(car: CarFeatures, art: Artifacts)
    ensures EncodedFrame(car, art).Keys == set f | f in SchemaFields
    ensures Missing(EncodedFrame(car, art), NumFeatures) == {}
    ensures Select(EncodedFrame(car, art), NumFeatures) == Ok(ScalerInput(car, art))
  {
    var f := EncodedFrame(car, art);
    assert "miles" in SchemaFields && "car_age" in SchemaFields && "engine_size" in SchemaFields;
    assert forall i :: 0 <= i < |NumFeatures| ==> NumFeatures[i] in f;
    var r := Select(f, NumFeatures);
    assert r.Ok?;
    assert |r.value| == 3;
    assert r.value[0] == f["miles"] && r.value[1] == f["car_age"] && r.value[2] == f["engine_size"];
    assert r.value == ScalerInput(car, art);
  }

  /**
   * Scaling a request frame never fails for an absent column; the row is
   * well formed exactly when the scaler accepts its input with a row three
   * wide and every manifest name is a schema field.
   */
  lemma FeatureVectorSucceeds(car: CarFeatures, art: Artifacts)
    ensures FeatureVector(car, art).Ok? <==>
      && art.scaler(ScalerInput(car, art)).Ok?
      && |art.scaler(ScalerInput(car, art)).value| == 3
      && forall i :: 0 <= i < |art.featureOrder| ==> art.featureOrder[i] in SchemaFields
    ensures !FeatureVector(car, art).Err? || !FeatureVector(car, art).error.MissingColumns? ||
      FeatureVector(car, art).error.names == set n | n in art.featureOrder && n !in SchemaFields
  {
    EncodedFrameColumns(car, art);
    var f := EncodedFrame(car, art);
    var s := Scale(f, art.scaler);
    if s.Ok? {
      assert s.value.Keys == set n | n in SchemaFields;
      assert Missing(s.value, art.featureOrder) == set n | n in art.featureOrder && n !in SchemaFields;
      forall i | 0 <= i < |art.featureOrder|
        ensures art.featureOrder[i] in s.value <==> art.featureOrder[i] in SchemaFields
      {
      }
    }
  }

  /**
   * A manifest name that is not a field of the request makes the call
   * return an error, never a price; if the scaler refuses the row, that
   * refusal is the error reported; once the scaler has accepted the row,
   * the error is the key error naming the absent columns.
   */
  lemma MissingFeatureIsError(car: CarFeatures, art: Artifacts, i: nat)
    requires i < |art.featureOrder| && art.featureOrder[i] !in SchemaFields
    ensures Predict(car, art).Error?
    ensures art.scaler(ScalerInput(car, art)).Err? ==>
      Predict(car, art) == Error(ScalerError(art.scaler(ScalerInput(car, art)).error))
    ensures art.scaler(ScalerInput(car, art)).Ok? && |art.scaler(ScalerInput(car, art)).value| == 3 ==>
      Predict(car, art) == Error(MissingColumns(set n | n in art.featureOrder && n !in SchemaFields))
  {
    FeatureVectorSucceeds(car, art);
    EncodedFrameColumns(car, art);
  }

  /**
   * Position `i` of the scored row holds the value of column
   * `featureOrder[i]` after encoding and scaling: the scaler's output for a
   * numeric column, the encoded cell for any other column.
   */
  lemma FeatureVectorAt(car: CarFeatures, art: Artifacts, i: nat)
    requires i < |art.featureOrder|
    ensures FeatureVector(car, art).Ok? ==>
      && |FeatureVector(car, art).value| == |art.featureOrder|
      && art.featureOrder[i] in SchemaFields
      && (art.featureOrder[i] !in NumFeatures ==>
            FeatureVector(car, art).value[i] == EncodedFrame(car, art)[art.featureOrder[i]])
      && art.scaler(ScalerInput(car, art)).Ok?
      && |art.scaler(ScalerInput(car, art)).value| == |NumFeatures|
      && forall j :: 0 <= j < |NumFeatures| && art.featureOrder[i] == NumFeatures[j] ==>
           FeatureVector(car, art).value[i] == Float(art.scaler(ScalerInput(car, art)).value[j])
  {
    EncodedFrameColumns(car, art);
    var f := EncodedFrame(car, art);
    var s := Scale(f, art.scaler);
    if s.Err? {
      return;
    }
    var row := Select(s.value, art.featureOrder);
    assert row == FeatureVector(car, art);
    if row.Err? {
      return;
    }
    var col := art.featureOrder[i];
    assert col in s.value && row.value[i] == s.value[col];
    assert col in set n | n in SchemaFields;
    var out := art.scaler(ScalerInput(car, art)).value;
    if col !in NumFeatures {
      assert s.value[col] == f[col];
    }
    forall j | 0 <= j < |NumFeatures| && col == NumFeatures[j] ensures s.value[col] == Float(out[j]) {
    }
  }

  /**
   * Position `i` of the scored row, for a categorical column with an
   * encoder, holds the sentinel -1 exactly when the request's value is not
   * in the vocabulary, and otherwise a code that decodes back to that value.
   */
  lemma CategoricalAt(car: CarFeatures, art: Artifacts, i: nat)
    requires i < |art.featureOrder|
    ensures var col := art.featureOrder[i];
      FeatureVector(car, art).Ok? && col !in NumFeatures && VocabularyOf(art.encoders, col).Some? ==>
      var classes := VocabularyOf(art.encoders, col).value;
      var raw := ToRecord(car)[col];
      var cell := FeatureVector(car, art).value[i];
      && cell.Int?
      && (cell == Int(Sentinel) <==> !Known(classes, raw))
      && (Known(classes, raw) ==> Decode(classes, cell.i) == Some(raw.s))
  {
    FeatureVectorAt(car, art, i);
    EncodedFrameColumns(car, art);
  }

  /**
   * Encoding never fails: whether the row can be built does not depend on
   * the categorical values at all, seen or unseen, only on the numeric
   * fields (through the scaler) and the manifest.
   */
  lemma CategoriesCannotFail(car1: CarFeatures, car2: CarFeatures, art: Artifacts)
    requires car1.miles == car2.miles && car1.carAge == car2.carAge && car1.engineSize == car2.engineSize
    ensures FeatureVector(car1, art).Ok? == FeatureVector(car2, art).Ok?
  {
    FeatureVectorSucceeds(car1, art);
    FeatureVectorSucceeds(car2, art);
    assert ScalerInput(car1, art) == ScalerInput(car2, art);
  }

  /**
   * The response is a price exactly when every stage succeeds, and the
   * price is then the regressor's score rounded to a multiple of 100 at
   * most 50 away; any failure yields the error form.
   */
  lemma PredictOutcome(car: CarFeatures, art: Artifacts)
    ensures Predict(car, art).PredictedPrice? <==>
      FeatureVector(car, art).Ok? && art.model(FeatureVector(car, art).value).Ok?
    ensures Predict(car, art).PredictedPrice? ==>
      var score := art.model(FeatureVector(car, art).value).value;
      var p := Predict(car, art).price;
      && p == p.Floor as real
      && p.Floor % 100 == 0
      && -50.0 <= score - p <= 50.0
      && RoundHundreds(p) == p.Floor
  {
    if Predict(car, art).PredictedPrice? {
      var score := art.model(FeatureVector(car, art).value).value;
      RoundIdempotent(score);
    }
  }

  /** A request the artifacts accept ends in the rounded score of its row. */
  lemma PredictSucceeds(car: CarFeatures, art: Artifacts, score: real)
    requires forall i :: 0 <= i < |art.featureOrder| ==> art.featureOrder[i] in SchemaFields
    ensures art.scaler(ScalerInput(car, art)).Ok? && |art.scaler(ScalerInput(car, art)).value| == 3 ==>
      && FeatureVector(car, art).Ok?
      && (art.model(FeatureVector(car, art).value) == Ok(score) ==>
            Predict(car, art) == PredictedPrice(RoundHundreds(score) as real))
  {
    FeatureVectorSucceeds(car, art);
  }
}
