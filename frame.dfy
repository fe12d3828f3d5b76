/**
 * The one-row data frame that the prediction handler builds from a request:
 * a map from column name to the single cell of that column, together with the
 * two frame operations the handler relies on, selecting a list of columns
 * (`df[names]`, which fails with a key error for an absent column) and the
 * per-request failures the handler turns into an error response.
 */
module Frame {

  datatype Option<T> = None | Some(value: T)

  datatype Result<T, E> = Ok(value: T) | Err(error: E)

  /** One cell: a string, an integer, or a float (modelled as an exact real). */
  datatype Value = Str(s: string) | Int(i: int) | Float(x: real)

  /** A one-row frame: column name to the value in its only row. */
  type Record = map<string, Value>

  /** The exceptions a request can raise inside the handler's `try` block. */
  datatype Failure =
    | MissingColumns(names: set<string>)  // a selected column is not in the frame (KeyError)
    | ScalerError(message: string)        // the fitted scaler refused its input
    | ShapeMismatch(width: nat)           // the scaler returned a row of the wrong width
    | ModelError(message: string)         // the fitted regressor refused its input

  /** The names in `names` that are not columns of `frame`. */
  function Missing(frame: Record, names: seq<string>): (m: set<string>)
    ensures forall n :: n in m <==> n in names && n !in frame
    ensures m == {} <==> forall i :: 0 <= i < |names| ==> names[i] in frame
  {
    set n | n in names && n !in frame
  }

  /**
   * `df[names].to_numpy()[0]`: the cells of the named columns, in the order of
   * `names` (repetitions allowed); a key error naming the absent columns if
   * any name is not a column.
   */
  function Select(frame: Record, names: seq<string>): (r: Result<seq<Value>, Failure>)
    ensures r.Ok? <==> forall i :: 0 <= i < |names| ==> names[i] in frame
    ensures r.Ok? ==> |r.value| == |names|
    ensures r.Ok? ==> forall i :: 0 <= i < |names| ==> r.value[i] == frame[names[i]]
    ensures r.Err? ==> r.error == MissingColumns(Missing(frame, names)) && r.error.names != {}
  {
    if Missing(frame, names) != {} then
      Err(MissingColumns(Missing(frame, names)))
    else
      Ok(seq(|names|, i requires 0 <= i < |names| => frame[names[i]]))
  }

  /** Position of the first occurrence of `x` in `xs`. */
  function FirstIndex<T(==)>(xs: seq<T>, x: T): (i: nat)
    requires x in xs
    ensures i < |xs| && xs[i] == x
    ensures forall j :: 0 <= j < i ==> xs[j] != x
  {
    if xs[0] == x then 0 else 1 + FirstIndex(xs[1..], x)
  }

  ghost predicate NoDuplicates<T>(xs: seq<T>) {
    forall i, j :: 0 <= i < j < |xs| ==> xs[i] != xs[j]
  }

  /** The frame that a row `vals` read under column names `names` describes (first name wins). */
  function Unflatten(names: seq<string>, vals: seq<Value>): (r: Record)
    requires |names| == |vals|
    ensures r.Keys == set n | n in names
  {
    map n | n in names :: vals[FirstIndex(names, n)]
  }

  /**
   * Selecting by a manifest that names every column of the frame loses
   * nothing: the selected row, read back under the manifest, is the frame.
   */
  lemma SelectThenUnflatten(frame: Record, names: seq<string>)
    requires frame.Keys == set n | n in names
    ensures Select(frame, names).Ok?
    ensures Unflatten(names, Select(frame, names).value) == frame
  {
    var r := Select(frame, names);
    forall i | 0 <= i < |names| ensures names[i] in frame {
      assert names[i] in set n | n in names;
    }
    var u := Unflatten(names, r.value);
    forall n | n in frame ensures n in u && u[n] == frame[n] {
      assert n in set m | m in names;
      var k := FirstIndex(names, n);
      assert u[n] == r.value[k] == frame[names[k]];
    }
  }

  /**
   * Conversely, a row read under a duplicate-free manifest is recovered by
   * selecting that manifest from the frame it describes.
   */
  lemma UnflattenThenSelect(names: seq<string>, vals: seq<Value>)
    requires |names| == |vals| && NoDuplicates(names)
    ensures Select(Unflatten(names, vals), names) == Ok(vals)
  {
    var u := Unflatten(names, vals);
    forall i | 0 <= i < |names| ensures names[i] in u && u[names[i]] == vals[i] {
      assert names[i] in set n | n in names;
      var k := FirstIndex(names, names[i]);
      assert k == i;
    }
    var r := Select(u, names);
    assert r.value == vals;
  }
}
