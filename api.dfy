/**
 * The body of the `/predict` handler: validate the request against the schema,
 * dump the validated record keyed by alias, score it, and answer with the
 * rounded score and the label of the unrounded score.
 */
module Api {
  import opened Wrappers
  import opened Catalog
  import opened TextCleaning
  import opened Validation
  import opened Inference
  import opened Classification

  /** What the handler produces: a response, the validation errors, or the failure of scoring. */
  datatype Outcome =
    | Ok(response: PredictionResponse)
    | Unprocessable(errors: seq<FieldError>)
    | ServerError(cause: InferenceError)

  /** A numeric position of the row built from a validated record holds the validated number. */
  lemma ValidatedNumericCell(vals: seq<Cell>, pyStr: real -> string, k: nat)
    requires |vals| == 24 && k < 7
    ensures ModelInput(ModelDump(vals), pyStr)[k] == vals[k]
  {
    var dump := ModelDump(vals);
    assert dump[AllFeatures[k]] == vals[k];
  }

  /** A categorical position of the row built from a validated record holds the cleaned string. */
  lemma ValidatedCategoricalCell(vals: seq<Cell>, pyStr: real -> string, k: nat)
    requires |vals| == 24 && 7 <= k < 24 && vals[k].Str?
    ensures ModelInput(ModelDump(vals), pyStr)[k] == Str(CleanText(Some(vals[k].s)))
  {
    var dump := ModelDump(vals);
    assert dump[AllFeatures[k]] == vals[k];
    CleanTextCell(vals[k].s, pyStr);
  }

  /**
   * On a validated record the pipeline sees the numbers exactly as validated and
   * each categorical string cleaned; how Python would print a number never matters.
   */
  lemma ValidatedRow(vals: seq<Cell>, pyStr: real -> string)
    requires |vals| == 24
    requires forall k :: 7 <= k < |vals| ==> vals[k].Str?
    ensures var row := ModelInput(ModelDump(vals), pyStr);
      && |row| == |vals|
      && (forall k :: 0 <= k < 7 ==> row[k] == vals[k])
      && (forall k :: 7 <= k < |vals| ==> row[k] == Str(CleanText(Some(vals[k].s))))
  {
    forall k | 0 <= k < 7 {
      ValidatedNumericCell(vals, pyStr, k);
    }
    forall k | 7 <= k < 24 {
      ValidatedCategoricalCell(vals, pyStr, k);
    }
  }

  /** The score of a validated record. */
  function ScoreOf(vals: seq<Cell>, pipeline: Pipeline, pyStr: real -> string): Result<real, InferenceError>
    requires |vals| == 24
  {
    RunPipeline(pipeline, ModelInput(ModelDump(vals), pyStr))
  }

  /**
   * `predict`: a body that fails validation gets the validation errors and never
   * reaches the pipeline; an accepted body never fails for a missing column; a
   * score is answered with its label and its rounded value.
   */
  method Predict(raw: map<string, Json>, parseFloat: string -> Option<real>, pipeline: Pipeline, pyStr: real -> string)
    returns (out: Outcome)
    ensures out.Unprocessable? <==> Validate(raw, parseFloat).Failure?
    ensures out.Unprocessable? ==> out.errors == Validate(raw, parseFloat).error && out.errors != []
    ensures out.Unprocessable? <==> !Acceptable(raw, parseFloat)
    ensures out.ServerError? ==> !out.cause.KeyError?
    ensures Validate(raw, parseFloat).Success? ==>
      var score := ScoreOf(Validate(raw, parseFloat).value, pipeline, pyStr);
      && (score.Failure? ==> out == ServerError(score.error))
      && (score.Success? ==>
            && out == Ok(Respond(score.value))
            && out.response.message == Message(BandOf(score.value))
            && -0.005 <= out.response.sustainabilityScore - score.value <= 0.005)
  {
    ValidateAcceptsIff(raw, parseFloat);
    var validated := Validate(raw, parseFloat);
    if validated.Failure? {
      return Unprocessable(validated.error);
    }
    var dataDict := ModelDump(validated.value);
    assert forall c :: c in AllFeatures ==> c in dataDict;
    var score := PredictSustainabilityScore(dataDict, pipeline, pyStr);
    assert score == ScoreOf(validated.value, pipeline, pyStr);
    if score.Failure? {
      return ServerError(score.error);
    }
    return Ok(Respond(score.value));
  }
}
