# Car price prediction: the request-preprocessing pipeline

This project models the `/predict` handler of a small car-price service
(`predict_price` in `main.py`). One validated request (`CarFeatures`) becomes
a one-row frame. The frame is then changed in four steps:

1. **Encoding.** Each column that has a fitted label encoder gets the
   position of its value in that encoder's vocabulary (`classes_`). A value
   outside the vocabulary gets the sentinel `-1`. An encoder whose column is
   not in the frame is skipped.
2. **Scaling.** The fitted scaler receives exactly `miles`, `car_age` and
   `engine_size`, in that order. Its output row replaces those three columns.
3. **Reordering.** The columns are picked in the order of the feature
   manifest (`feature_order`). A manifest name that is not a column is a
   key error.
4. **Scoring and shaping.** The regressor scores the row. The score is
   rounded to a multiple of 100, ties to the even hundred. Any exception on
   the way becomes an error response.

The Dafny model:

- `Frame`: the one-row frame as `map<string, Value>`, column selection
  `Select` (which is `df[names]`), and the per-request failures (`Failure`).
  Two lemmas show that selection by a manifest loses nothing. One reads the
  row back into the frame. The other goes the other way.
- `Request`: the `CarFeatures` record and the frame built from it.
- `Encoding`: the vocabulary lookup (`Code`, `Decode`), the specification
  `Encoded` of the encoded frame, and the imperative loop
  `EncodeCategoricals`, proved equal to `Encoded`.
- `Scaling`: `Scale`, with the scaler as an uninterpreted function value.
- `Rounding`: Python's `round(x, -2)` on exact reals.
- `Prediction`: the artifacts (encoders, scaler, regressor, manifest) as one
  immutable value, the handler as a specification function `Predict`, the
  handler method `PredictPrice` proved equal to it, and end-to-end lemmas.

The loaded artifacts are parameters of the handler. The scaler and the
regressor are function values whose results may be a refusal (`Err`), which
stands for any exception they raise.

Behaviour of the code worth noting:

- A manifest name that is not a column is not rejected at start-up. It makes
  each request fail with a key error (`MissingFeatureIsError`).
- A missing numeric column would be a per-request key error caught by the
  handler, not a configuration error. It cannot happen, because the request
  schema always provides the three numeric fields (`EncodedFrameColumns`).
- The price is not clamped to be non-negative. A negative score rounds to a
  negative price.
- Scaling runs before reordering. A scaler refusal therefore hides a
  manifest mismatch: the error reported is the scaler's
  (`MissingFeatureIsError`).

## Model

| member | source | states |
|---|---|---|
| `Request.ToRecord` | main.py:29-38 | the request frame has exactly the nine schema columns, each holding its own request field: the six text fields as strings, `miles` and `car_age` as integers, `engine_size` as a float |
| `Frame.Select` | main.py:55-57 | selection succeeds iff every name is a column; the row has one cell per name, and cell i is the value of column `names[i]`; otherwise the error is the key error naming exactly the absent columns, never empty |
| `Frame.SelectThenUnflatten` | main.py:55-57 | a manifest covering the frame's columns always selects, and the selected row read back under the manifest is the frame |
| `Frame.UnflattenThenSelect` | main.py:55-57 | selecting a duplicate-free manifest from the frame a row describes gives back that row |
| `Encoding.Code` | main.py:47-50 | the code is the sentinel -1 exactly when the value is not in the vocabulary; otherwise it is a position in the vocabulary holding that value |
| `Encoding.DecodeCode` | main.py:47-50 | decoding the code gives back the original string for a known value, and nothing for an unknown one |
| `Encoding.CodeDecode` | main.py:48 | in a fitted vocabulary (strictly sorted) the code of the value at position c is c |
| `Encoding.SortedIsDistinct` | main.py:47-48 | a strictly sorted vocabulary has no repeated value, so each code stands for one value |
| `Encoding.VocabularyOf` | main.py:45-46 | the lookup finds a vocabulary exactly when some encoder is keyed by the column, and then it is that encoder's vocabulary |
| `Encoding.Encoded` | main.py:45-50 | the encoded frame has the same columns; a column with no encoder is unchanged; a column with one holds an integer that is -1 iff its value was unknown and otherwise decodes back to the value |
| `Encoding.EncodeCategoricals` | main.py:45-50 | the loop over the encoders produces exactly `Encoded`, never fails, and skips encoders whose column is absent |
| `Scaling.Scale` | main.py:52-53 | scaling fails iff a numeric column is absent, the scaler refuses, or its row is not three wide; on success the columns are the same, `miles`, `car_age`, `engine_size` hold the scaler's outputs in that order, and every other column keeps its encoded value |
| `Rounding.RoundHalfEven` | main.py:61 | the integer is within 1/2 of the input, and is even at a tie |
| `Rounding.RoundHundreds` | main.py:61 | the price is a multiple of 100 within 50 of the score, and at a tie the even hundred |
| `Rounding.RoundIsNearest` | main.py:61 | no multiple of 100 is nearer to the score than the price |
| `Rounding.RoundIsUnique` | main.py:61 | a multiple of 100 less than 50 from the score is the price |
| `Rounding.RoundIdempotent` | main.py:61 | rounding a rounded price leaves it unchanged |
| `Rounding.RoundExamples` | main.py:61 | 12345.6 rounds to 12300; the ties 1250, 1350 and -250 go to 1200, 1400 and -200 |
| `Prediction.PredictPrice` | main.py:41-66 | the handler returns exactly the response `Predict` describes: the first failing stage's error, or the rounded score |
| `Prediction.EncodedFrameColumns` | main.py:43-53 | after encoding, a request frame still has exactly the schema's columns, so the scaler's input row is always available |
| `Prediction.FeatureVectorSucceeds` | main.py:52-57 | the scored row is built iff the scaler accepts its input with a three-wide row and every manifest name is a schema field; a key error names exactly the manifest names outside the schema |
| `Prediction.MissingFeatureIsError` | main.py:55-66 | a manifest name outside the schema always yields an error response; if the scaler refuses, the error is the scaler's refusal, and once it accepts, the error is the key error naming the absent columns |
| `Prediction.FeatureVectorAt` | main.py:45-57 | whenever the row is built, it is as long as the manifest, and position i holds column `featureOrder[i]` after encoding, or after scaling for a numeric column |
| `Prediction.CategoricalAt` | main.py:45-57 | in a built row, a categorical position with an encoder holds -1 iff the request's value is unknown, and otherwise a code that decodes to that value |
| `Prediction.CategoriesCannotFail` | main.py:45-53 | whether the row can be built does not depend on the categorical values, seen or unseen |
| `Prediction.PredictOutcome` | main.py:59-66 | the response is a price iff every stage succeeds, and the price is then a whole multiple of 100 within 50 of the score that rounding does not change |
| `Prediction.PredictSucceeds` | main.py:55-63 | when the manifest fits the schema and the scaler accepts, a score from the regressor becomes the response's rounded price |

## Left out

- Loading the regressor, encoders, scaler and manifest from files (main.py:11-16): file I/O at start-up. They enter as the immutable `Artifacts` value.
- The web application, its cross-origin settings, the route and the server start (main.py:19-27, 40, 68-69): HTTP plumbing. Both outcomes are sent with status 200, so a client cannot tell them apart by status code. That design flaw is kept, not modelled.
- Request validation (main.py:29-38): only the validated record is modelled.
- The internals of the scaler's transform and the regressor's predict (main.py:53, 59): opaque floating-point library code, so they are uninterpreted function values. Any exception they raise is a refusal (`Err`), with its message as an opaque string.
- The text of the error message (`str(e)`, main.py:66): it is produced by the data-frame and learning libraries, so the model reports the kind of failure (`Failure`) instead of its rendered text.
- Data-frame mechanics (main.py:43, 57): column dtypes and the conversion to a numeric array are not modelled. The one-row frame is a map from column name to cell, and the array is the sequence of selected cells.
- Encoding.Code: vocabularies are modelled as sequences of strings, as a label encoder fitted on text columns has. A vocabulary of numbers is not modelled. An integer or float cell is never a member of a string vocabulary, so it encodes to -1.
- Rounding.RoundHundreds: scores are exact reals, not 64-bit floats. Representation error in `x / 100` and the sign of a rounded zero (`-0.0`) are not modelled.
- Prediction.PredictOutcome: non-finite floats (NaN, +inf, -inf) have no `real` counterpart, so they are not modelled, neither as an `engine_size` in the request nor as a score. For such a score, `round(x, -2)` returns the value unchanged without raising. The handler then returns a price of NaN or infinity, and that body fails JSON encoding outside the handler, so the caller gets neither a price nor an error. The "price or error" outcome is proved only for finite scores.
- The news-feed endpoint and its article deduplication: no such code exists in main.py, so there is nothing to model.
