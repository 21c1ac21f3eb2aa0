/**
 * `predict_sustainability_score`: build a one-row frame from the record,
 * clean every categorical column it holds, reorder it to the catalog's 24
 * columns, and run the loaded pipeline's preprocessing step and predictor on it.
 */
module Inference {
  import opened Wrappers
  import opened Catalog
  import opened TextCleaning

  /**
   * The loaded pipeline, an opaque trained artifact: a preprocessing step whose
   * output is only logged, and a predictor giving one score. Either may raise.
   */
  datatype Pipeline = Pipeline(transform: seq<Cell> -> Option<seq<real>>, predict: seq<Cell> -> Option<real>)

  /** Why no score came back: a catalog column absent from the record, or the pipeline raised. */
  datatype InferenceError = KeyError(missing: seq<string>) | TransformFailed | PredictFailed

  /** A cleaned categorical cell: a string with no surrounding whitespace and no ASCII capitals. */
  predicate CleanCellValue(c: Cell) {
    c.Str? && Bare(c.s) && NoAsciiUpper(c.s)
  }

  /**
   * `clean_text` applied to one cell. A missing value becomes "unknown"; a number
   * is first rendered by Python's `str`, which `pyStr` stands for.
   */
  function CleanCell(c: Cell, pyStr: real -> string): (r: Cell)
    ensures CleanCellValue(r)
    ensures c.Null? ==> r == Str("unknown")
  {
    match c
    case Null => Str(CleanText(None))
    case Str(s) => Str(CleanText(Some(s)))
    case Num(n) => Str(CleanText(Some(pyStr(n))))
  }

  /** A text cell is cleaned by `clean_text` on its string. */
  lemma CleanTextCell(s: string, pyStr: real -> string)
    ensures CleanCell(Str(s), pyStr) == Str(CleanText(Some(s)))
  {
  }

  lemma CleanCellIdempotent(c: Cell, pyStr: real -> string)
    ensures CleanCell(CleanCell(c, pyStr), pyStr) == CleanCell(c, pyStr)
  {
    var r := CleanCell(c, pyStr);
    CleanTextIdempotent(Some(r.s));
    StripBare(r.s);
  }

  /**
   * The frame after cleaning the given columns: those it holds are cleaned,
   * every other column is left as it was.
   */
  function CleanedColumns(frame: map<string, Cell>, columns: seq<string>, pyStr: real -> string): (df: map<string, Cell>)
    ensures df.Keys == frame.Keys
    ensures forall c :: c in frame && c !in columns ==> df[c] == frame[c]
    ensures forall c :: c in frame && c in columns ==> CleanCellValue(df[c])
  {
    map c | c in frame :: if c in columns then CleanCell(frame[c], pyStr) else frame[c]
  }

  /** The frame after the cleaning loop over the categorical names. */
  function Normalized(frame: map<string, Cell>, pyStr: real -> string): (df: map<string, Cell>)
    ensures df.Keys == frame.Keys
    ensures forall c :: c in frame && c !in CategoricalFeatures ==> df[c] == frame[c]
    ensures forall c :: c in frame && c in CategoricalFeatures ==> CleanCellValue(df[c])
  {
    CleanedColumns(frame, CategoricalFeatures, pyStr)
  }

  /** Cleaning a frame twice is cleaning it once. */
  lemma NormalizedIdempotent(frame: map<string, Cell>, pyStr: real -> string)
    ensures Normalized(Normalized(frame, pyStr), pyStr) == Normalized(frame, pyStr)
  {
    var once := Normalized(frame, pyStr);
    forall c | c in once && c in CategoricalFeatures
      ensures CleanCell(once[c], pyStr) == once[c]
    {
      CleanCellIdempotent(frame[c], pyStr);
    }
  }

  /**
   * Cleaning one more column cleans that column again, if the frame holds it, and
   * changes nothing else; cleaning twice is cleaning once, so a repeated name is harmless.
   */
  lemma CleanedColumnsStep(frame: map<string, Cell>, columns: seq<string>, i: nat, pyStr: real -> string)
    requires i < |columns|
    ensures var prev := CleanedColumns(frame, columns[..i], pyStr);
      var col := columns[i];
      CleanedColumns(frame, columns[..i + 1], pyStr) ==
        if col in prev then prev[col := CleanCell(prev[col], pyStr)] else prev
  {
    var prev := CleanedColumns(frame, columns[..i], pyStr);
    var next := CleanedColumns(frame, columns[..i + 1], pyStr);
    var col := columns[i];
    assert columns[..i + 1] == columns[..i] + [col];
    if col in frame {
      var updated := prev[col := CleanCell(prev[col], pyStr)];
      forall c | c in frame
        ensures next[c] == updated[c]
      {
        if c == col {
          CleanCellIdempotent(frame[col], pyStr);
        } else {
          assert c in columns[..i + 1] <==> c in columns[..i];
        }
      }
      assert next.Keys == updated.Keys;
    } else {
      forall c | c in frame
        ensures next[c] == prev[c]
      {
        assert c in columns[..i + 1] <==> c in columns[..i];
      }
    }
  }

  /**
   * The cleaning loop: for each name in `columns`, overwrite that column, if the
   * frame holds it, with its cleaned value.
   */
  method CleanColumns(frame: map<string, Cell>, columns: seq<string>, pyStr: real -> string) returns (df: map<string, Cell>)
    ensures df == CleanedColumns(frame, columns, pyStr)
  {
    df := frame;
    assert columns[..0] == [];
    for i := 0 to |columns|
      invariant df == CleanedColumns(frame, columns[..i], pyStr)
    {
      CleanedColumnsStep(frame, columns, i, pyStr);
      var col := columns[i];
      if col in df {
        df := df[col := CleanCell(df[col], pyStr)];
      }
    }
    assert columns[..|columns|] == columns;
  }

  /** The catalog columns absent from the frame, in catalog order. */
  function MissingColumns(df: map<string, Cell>, cols: seq<string>): (r: seq<string>)
    ensures forall c :: c in r <==> c in cols && c !in df
    ensures |r| <= |cols|
  {
    if cols == [] then []
    else if cols[0] in df then MissingColumns(df, cols[1..])
    else [cols[0]] + MissingColumns(df, cols[1..])
  }

  /** Which columns are absent depends only on the frame's column names. */
  lemma {:induction false} MissingColumnsKeysOnly(df1: map<string, Cell>, df2: map<string, Cell>, cols: seq<string>)
    requires df1.Keys == df2.Keys
    ensures MissingColumns(df1, cols) == MissingColumns(df2, cols)
  {
    if cols != [] {
      MissingColumnsKeysOnly(df1, df2, cols[1..]);
    }
  }

  /** `df[ALL_FEATURES]`: the frame's cells in catalog order, or a KeyError naming the absent columns. */
  function Project(df: map<string, Cell>): (r: Result<seq<Cell>, seq<string>>)
    ensures r.Failure? <==> exists c :: c in AllFeatures && c !in df
    ensures r.Failure? ==> r.error != [] && forall c :: c in r.error <==> c in AllFeatures && c !in df
    ensures r.Success? ==> (|r.value| == |AllFeatures|
      && forall i :: 0 <= i < |AllFeatures| ==> r.value[i] == df[AllFeatures[i]])
  {
    var missing := MissingColumns(df, AllFeatures);
    if missing == [] then
      Success(seq(|AllFeatures|, i requires 0 <= i < |AllFeatures| => df[AllFeatures[i]]))
    else
      assert missing[0] in AllFeatures && missing[0] !in df;
      Failure(missing)
  }

  /**
   * The row the pipeline is meant to see: the record's cells in catalog order, the
   * seven numeric ones as given and the seventeen categorical ones cleaned.
   */
  function ModelInput(record: map<string, Cell>, pyStr: real -> string): (row: seq<Cell>)
    requires forall c :: c in AllFeatures ==> c in record
    ensures |row| == |AllFeatures| == 24
    ensures forall i :: 0 <= i < 7 ==> row[i] == record[AllFeatures[i]]
    ensures forall i :: 7 <= i < 24 ==> row[i] == CleanCell(record[AllFeatures[i]], pyStr) && CleanCellValue(row[i])
  {
    CatalogShape();
    seq(|AllFeatures|, i requires 0 <= i < |AllFeatures| =>
      if i < 7 then record[AllFeatures[i]] else CleanCell(record[AllFeatures[i]], pyStr))
  }

  /** Cleaning then reordering (as the source does) gives the reordered record with its categorical slots cleaned. */
  lemma ProjectNormalized(record: map<string, Cell>, pyStr: real -> string)
    requires forall c :: c in AllFeatures ==> c in record
    ensures Project(Normalized(record, pyStr)) == Success(ModelInput(record, pyStr))
  {
    var df := Normalized(record, pyStr);
    var r := Project(df);
    assert r.Success?;
    var row := ModelInput(record, pyStr);
    forall i | 0 <= i < |AllFeatures|
      ensures r.value[i] == row[i]
    {
      CategoricalPosition(i);
      assert r.value[i] == df[AllFeatures[i]];
      if i < 7 {
        assert row[i] == record[AllFeatures[i]];
      } else {
        assert row[i] == CleanCell(record[AllFeatures[i]], pyStr);
      }
    }
    assert r.value == row;
  }

  /** The `try` block: run the preprocessing step (for its failure only), then the predictor. */
  function RunPipeline(pipeline: Pipeline, row: seq<Cell>): (r: Result<real, InferenceError>)
    ensures r.Success? <==> pipeline.transform(row).Some? && pipeline.predict(row).Some?
    ensures r.Success? ==> r.value == pipeline.predict(row).value
    ensures r.Failure? ==> r.error == (if pipeline.transform(row).None? then TransformFailed else PredictFailed)
  {
    if pipeline.transform(row).None? then Failure(TransformFailed)
    else match pipeline.predict(row)
      case None => Failure(PredictFailed)
      case Some(score) => Success(score)
  }

  /**
   * `predict_sustainability_score`: a record lacking a catalog column fails with the
   * absent columns; otherwise the pipeline runs on the reordered, cleaned row.
   */
  method PredictSustainabilityScore(inputData: map<string, Cell>, pipeline: Pipeline, pyStr: real -> string)
    returns (r: Result<real, InferenceError>)
    ensures (exists c :: c in AllFeatures && c !in inputData) <==> r.Failure? && r.error.KeyError?
    ensures r.Failure? && r.error.KeyError? ==> r.error.missing == MissingColumns(inputData, AllFeatures)
    ensures (forall c :: c in AllFeatures ==> c in inputData) ==>
      r == RunPipeline(pipeline, ModelInput(inputData, pyStr))
  {
    var df := CleanColumns(inputData, CategoricalFeatures, pyStr);
    var projected := Project(df);
    if projected.Failure? {
      MissingColumnsKeysOnly(df, inputData, AllFeatures);
      return Failure(KeyError(projected.error));
    }
    ProjectNormalized(inputData, pyStr);
    var row := projected.value;
    var transformed := pipeline.transform(row);
    if transformed.None? {
      return Failure(TransformFailed);
    }
    var prediction := pipeline.predict(row);
    if prediction.None? {
      return Failure(PredictFailed);
    }
    return Success(prediction.value);
  }
}
