/**
 * Categorical encoding: every column that has a fitted label encoder is
 * replaced by the position of its value in that encoder's vocabulary
 * (`classes_`), or by the sentinel -1 when the value is not in it.
 */
module Encoding {
  import opened Frame

  /** A fitted label encoder: the column it was fitted on and its vocabulary. */
  datatype Encoder = Encoder(column: string, classes: seq<string>)

  /** The code given to a value outside the vocabulary. */
  const Sentinel: int := -1

  /** The encoders are keyed by column, as in a dictionary. */
  ghost predicate DistinctColumns(encoders: seq<Encoder>) {
    forall i, j :: 0 <= i < j < |encoders| ==> encoders[i].column != encoders[j].column
  }

  /** Code-point lexicographic order on strings, the order of a sorted vocabulary. */
  predicate LexLess(a: string, b: string) {
    if |a| == 0 then |b| > 0
    else if |b| == 0 then false
    else if a[0] != b[0] then a[0] < b[0]
    else LexLess(a[1..], b[1..])
  }

  /** A fitted vocabulary: the distinct training values in increasing order. */
  ghost predicate StrictlySorted(classes: seq<string>) {
    forall i, j :: 0 <= i < j < |classes| ==> LexLess(classes[i], classes[j])
  }

  lemma {:induction false} LexLessIrreflexive(a: string)
    ensures !LexLess(a, a)
  {
    if |a| > 0 {
      LexLessIrreflexive(a[1..]);
    }
  }

  /** A sorted vocabulary holds every value once, so a code names one value. */
  lemma SortedIsDistinct(classes: seq<string>)
    requires StrictlySorted(classes)
    ensures NoDuplicates(classes)
  {
    forall i, j | 0 <= i < j < |classes| ensures classes[i] != classes[j] {
      LexLessIrreflexive(classes[i]);
    }
  }

  /** Whether a cell is one of the vocabulary's values (`value in classes_`). */
  predicate Known(classes: seq<string>, v: Value) {
    v.Str? && v.s in classes
  }

  /**
   * The code of one cell: its index in the vocabulary when known
   * (`transform`), the sentinel otherwise.
   */
  function Code(classes: seq<string>, v: Value): (c: int)
    ensures c == Sentinel <==> !Known(classes, v)
    ensures Known(classes, v) ==> 0 <= c < |classes| && classes[c] == v.s
  {
    if Known(classes, v) then FirstIndex(classes, v.s) else Sentinel
  }

  /** `inverse_transform`: the vocabulary value a code stands for. */
  function Decode(classes: seq<string>, c: int): (o: Option<string>)
    ensures o.Some? <==> 0 <= c < |classes|
  {
    if 0 <= c < |classes| then Some(classes[c]) else None
  }

  /** Decoding a code gives back the known value, and nothing for the sentinel. */
  lemma DecodeCode(classes: seq<string>, v: Value)
    ensures Known(classes, v) ==> Decode(classes, Code(classes, v)) == Some(v.s)
    ensures !Known(classes, v) ==> Decode(classes, Code(classes, v)) == None
  {
  }

  /** In a fitted vocabulary the code of a value is its one and only position. */
  lemma CodeDecode(classes: seq<string>, c: int)
    requires StrictlySorted(classes)
    requires 0 <= c < |classes|
    ensures Code(classes, Str(classes[c])) == c
  {
    SortedIsDistinct(classes);
    var k := Code(classes, Str(classes[c]));
    assert classes[k] == classes[c];
  }

  /** The vocabulary of the first encoder fitted on `col`, if any. */
  function VocabularyOf(encoders: seq<Encoder>, col: string): (o: Option<seq<string>>)
    ensures o.None? <==> forall i :: 0 <= i < |encoders| ==> encoders[i].column != col
    ensures o.Some? ==> exists i :: 0 <= i < |encoders| && encoders[i] == Encoder(col, o.value)
  {
    if |encoders| == 0 then None
    else if encoders[0].column == col then Some(encoders[0].classes)
    else
      var rest := VocabularyOf(encoders[1..], col);
      assert rest.Some? ==> exists i :: 0 <= i < |encoders[1..]| && encoders[1..][i] == Encoder(col, rest.value);
      rest
  }

  /** Appending one more encoder leaves the lookup of every other column alone. */
  lemma {:induction false} VocabularyOfAppend(encoders: seq<Encoder>, e: Encoder, col: string)
    ensures VocabularyOf(encoders + [e], col) ==
      if VocabularyOf(encoders, col).Some? then VocabularyOf(encoders, col)
      else if e.column == col then Some(e.classes)
      else None
  {
    if |encoders| > 0 {
      assert (encoders + [e])[1..] == encoders[1..] + [e];
      VocabularyOfAppend(encoders[1..], e, col);
    }
  }

  /** The cell of column `col` after encoding. */
  function EncodedCell(encoders: seq<Encoder>, col: string, v: Value): Value {
    match VocabularyOf(encoders, col)
    case None => v
    case Some(classes) => Int(Code(classes, v))
  }

  /**
   * The frame after the encoding loop: same columns; a column without an
   * encoder is untouched; a column with one holds an integer code that is
   * the sentinel exactly when its value was unknown and otherwise decodes
   * back to that value.
   */
  function Encoded(frame: Record, encoders: seq<Encoder>): (r: Record)
    ensures r.Keys == frame.Keys
    ensures forall col :: col in frame && VocabularyOf(encoders, col).None? ==> r[col] == frame[col]
    ensures forall col :: col in frame && VocabularyOf(encoders, col).Some? ==>
      var classes := VocabularyOf(encoders, col).value;
      && r[col].Int?
      && (r[col].i == Sentinel <==> !Known(classes, frame[col]))
      && (Known(classes, frame[col]) ==> Decode(classes, r[col].i) == Some(frame[col].s))
  {
    map col | col in frame :: EncodedCell(encoders, col, frame[col])
  }

  /**
   * The loop over the encoders: each encoder whose column is in the frame
   * overwrites that column with the code of its value; encoders of absent
   * columns are skipped; nothing can fail.
   */
  method EncodeCategoricals(frame: Record, encoders: seq<Encoder>) returns (out: Record)
    requires DistinctColumns(encoders)
    ensures out == Encoded(frame, encoders)
  {
    out := frame;
    for n := 0 to |encoders|
      invariant out.Keys == frame.Keys
      invariant forall col :: col in frame ==> out[col] == EncodedCell(encoders[..n], col, frame[col])
    {
      var col, classes := encoders[n].column, encoders[n].classes;
      assert encoders[..n + 1] == encoders[..n] + [encoders[n]];
      forall c | c in frame
        ensures VocabularyOf(encoders[..n + 1], c) ==
          if c == col then Some(classes) else VocabularyOf(encoders[..n], c)
      {
        VocabularyOfAppend(encoders[..n], encoders[n], c);
      }
      if col in out {
        var v := out[col];
        if v.Str? && v.s in classes {
          out := out[col := Int(FirstIndex(classes, v.s))];
        } else {
          out := out[col := Int(Sentinel)];
        }
      }
    }
    assert encoders[..|encoders|] == encoders;
  }
}
