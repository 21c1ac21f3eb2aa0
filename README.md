# Sustainability score request pipeline, modelled in Dafny

This project models the request pipeline of a materials-sustainability scoring
service (`mlfastapi.py`). A request carries one material record. The record
has 7 numeric attributes (recycled content, carbon footprint, and so on) and
17 categorical attributes (base material, recyclability level, and so on).
The pipeline does four things:

1. It validates the record against the `SustainabilityInput` schema. Every
   field is required. The three percentage fields must lie in [0, 100], the
   other four numbers must be at least 0, and the categorical fields must be
   strings.
2. It cleans every categorical value with `clean_text`. A missing value becomes
   `"unknown"`. Any other value is stripped of surrounding whitespace and
   lower-cased.
3. It reorders the record into the fixed 24-column catalog order (numeric
   first) and runs the trained pipeline on it. The trained pipeline is an
   opaque artifact.
4. It turns the score into one of four labels. Thresholds are 80, 60 and 40.
   Each band's lower bound is inclusive. The label is chosen on the unrounded
   score; the score is then reported rounded to two decimals.

Modules, one per component:

- `Catalog` (catalog.dfy): the feature lists, the 24-column order, and the
  `Cell` type for one column value (number, text or missing).
- `TextCleaning` (text_cleaning.dfy): `strip`, ASCII `lower`, and `clean_text`.
- `Validation` (validation.dfy): the schema as data and the validator.
- `Inference` (inference.dfy): `predict_sustainability_score`. This covers the
  cleaning loop over the frame, the reordering, and the call into the pipeline.
- `Classification` (classification.dfy): the label chain, the bands, and
  `round(score, 2)`.
- `Api` (api.dfy): the body of the `/predict` handler, end to end.
- `Wrappers` (wrappers.dfy): `Option` and `Result`.

Some inputs of the code are not modelled directly and are passed in as
parameters instead:

- The trained pipeline is a `Pipeline` value holding two opaque functions.
  `transform` is the preprocessing step, whose output is only logged. `predict`
  is the predictor. Either may fail, which stands for raising an exception.
- The validator's string-to-float parser is the parameter `parseFloat`.
- Python's `str` applied to a number is the parameter `pyStr`. `clean_text`
  calls it when a categorical column holds a number.

Validation follows the lax mode of the declarative validator:

- A field is looked up by its alias first, then by its attribute name
  (`populate_by_name = True`).
- A float field accepts a JSON number, a boolean, or a string that
  `parseFloat` can read.
- A string field accepts only a JSON string. A JSON `null` for a categorical
  field is therefore a type error. The `null` branch of `clean_text` cannot be
  reached from the handler.
- Every failing field is reported, in declaration order. A missing field is
  reported under its alias. Any other error is reported under the key whose
  value failed: the alias when the body has it, otherwise the attribute name.

## Model

| member | source | states |
|---|---|---|
| `Catalog.CatalogShape` | mlfastapi.py:35-65 | There are 7 numeric and 17 categorical names. The 24-column order is the numeric names followed by the categorical names, and no name occurs twice. |
| `Catalog.CatalogDisjoint` | mlfastapi.py:35-63 | No name is both numeric and categorical. |
| `Catalog.CategoricalPosition` | mlfastapi.py:65 | A column of the 24-column order is categorical exactly when its position is 7 or more. |
| `TextCleaning.Lower` | mlfastapi.py:135 | `lower` maps each character on its own through `LowerChar`. Every ASCII capital becomes its small letter (its code plus 32), and every other character is left unchanged. |
| `TextCleaning.SkipSpaceForward` | mlfastapi.py:135 | The forward scan of `strip()` stops at the first non-whitespace character, or at the end. Everything it skipped is whitespace. |
| `TextCleaning.SkipSpaceBackward` | mlfastapi.py:135 | The backward scan of `strip()` stops just after the last non-whitespace character, never passing the start point. Everything it skipped is whitespace. |
| `TextCleaning.Strip` | mlfastapi.py:135 | `strip()` returns the text left after removing a whitespace-only run from each end. The result has no whitespace at either end. |
| `TextCleaning.StrippedFromUnique` | mlfastapi.py:135 | Only one string fits that description of `strip()`, so the description defines `strip()` completely. |
| `TextCleaning.StripBare` | mlfastapi.py:135 | `strip()` leaves a string with no surrounding whitespace unchanged. |
| `TextCleaning.LowerIdempotent` | mlfastapi.py:135 | Lower-casing twice is the same as lower-casing once. Lower-casing never creates or removes whitespace at the ends. |
| `TextCleaning.CleanText` | mlfastapi.py:131-135 | A missing value gives exactly `"unknown"`. A present value gives a string no longer than the input, with no surrounding whitespace and no ASCII capitals. |
| `TextCleaning.CleanTextIdempotent` | mlfastapi.py:131-135 | Cleaning an already cleaned value changes nothing. This holds for missing and present values alike. |
| `TextCleaning.StripBetween` | mlfastapi.py:135 | When a string is a whitespace-free-at-the-ends core with only whitespace before and after it, `strip()` returns exactly that core. |
| `TextCleaning.CleanTextPadded` | mlfastapi.py:131-135 | Padding never matters: any whitespace around a core with no surrounding whitespace cleans to the lower-cased core. |
| `TextCleaning.SentinelCollision` | mlfastapi.py:131-135 | A present `"Unknown"`, with any whitespace around it, cleans to the same text as a missing value. The model cannot tell the two apart after cleaning. |
| `Validation.Lookup` | mlfastapi.py:67-95 | A field is found under its alias, or else under its attribute name, and the value is the one held under that key. It is absent only when neither key is present. |
| `Validation.ErrorLoc` | mlfastapi.py:67-95 | A missing field is reported under its alias. Any other error is reported under the key holding the value that failed: the alias whenever the body has it, otherwise the attribute name. |
| `Validation.AsFloat` | mlfastapi.py:68-74 | A JSON number is taken as is. A boolean becomes 1 or 0. A string is accepted exactly when the float parser reads it, and gives the parsed value. Null, arrays and objects are type errors. Any other failure is a type or parsing error. |
| `Validation.CheckField` | mlfastapi.py:68-92 | An absent field is reported missing. An accepted string field held a JSON string, and a rejected one did not. An accepted number field's value lies within its `ge` and `le` bounds. |
| `Validation.Errors` | mlfastapi.py:67-92 | Every failing field is reported with its error, under the location `ErrorLoc` gives. Every report belongs to a failing field. The report is empty exactly when every field passes. |
| `Validation.Validate` | mlfastapi.py:67-92 | The record is accepted exactly when every field passes. On acceptance, the 24 validated values are given in declaration order. On rejection, the error list is non-empty and names exactly the failing fields, each at its `ErrorLoc` location. |
| `Validation.SchemaShape` | mlfastapi.py:65-92 | The schema's aliases are the catalog's 24 names in catalog order. The three percentage fields are bounded by [0, 100], the other four numbers by 0 from below, and the other 17 fields are strings. |
| `Validation.OutcomeAccepts` | mlfastapi.py:68-92 | A field passes exactly when it is present and its value meets the declared type and bounds. |
| `Validation.ValidateAcceptsIff` | mlfastapi.py:67-92 | A record passes validation exactly when all 24 fields are present, the three percentages are in [0, 100], the other four numbers are at least 0, and the 17 categorical values are strings. |
| `Validation.ValidatedRanges` | mlfastapi.py:67-92 | A validated record has 24 values. The first 7 are numbers within their bounds and the other 17 are strings. |
| `Validation.NegativeRejected` | mlfastapi.py:68-74 | A negative number in any numeric field fails validation with a `greater_than_equal` error under the key it was found at (the alias, or else the attribute name). |
| `Validation.AboveHundredRejected` | mlfastapi.py:68-73 | A percentage above 100 fails validation with a `less_than_equal` error under the key it was found at (the alias, or else the attribute name). |
| `Validation.NullCategoricalRejected` | mlfastapi.py:76-92 | A JSON null for a categorical field fails validation with a string-type error for that field. |
| `Validation.AbsentFieldRejected` | mlfastapi.py:67-92 | A field absent under both its alias and its name fails validation with a missing error for that field. |
| `Validation.ModelDump` | mlfastapi.py:197 | `model_dump(by_alias=True)` has exactly the 24 catalog names as keys, each holding the validated value at its position. |
| `Inference.CleanCell` | mlfastapi.py:131-135 | Cleaning a cell always gives a string with no surrounding whitespace and no ASCII capitals. A missing cell gives `"unknown"`. |
| `Inference.CleanCellIdempotent` | mlfastapi.py:131-135 | Cleaning a cell twice is the same as cleaning it once. |
| `Inference.CleanedColumns` | mlfastapi.py:144-146 | After cleaning the given columns, the frame keeps the same columns. Columns not in the list are unchanged. Columns in the list that the frame holds are clean. |
| `Inference.Normalized` | mlfastapi.py:144-146 | Normalisation keeps the frame's columns and leaves every non-categorical column (so every numeric one) unchanged. Every categorical column is clean. |
| `Inference.CleanedColumnsStep` | mlfastapi.py:144-146 | One more pass of the loop cleans that column again if the frame holds it, and changes nothing else. Because cleaning is idempotent, a repeated name is harmless. |
| `Inference.NormalizedIdempotent` | mlfastapi.py:144-146 | Normalising a frame twice is the same as normalising it once. |
| `Inference.CleanColumns` | mlfastapi.py:144-146 | The in-place loop over the column names gives the frame described by `CleanedColumns`. |
| `Inference.MissingColumns` | mlfastapi.py:148 | The absent columns are exactly the catalog names the frame lacks. |
| `Inference.MissingColumnsKeysOnly` | mlfastapi.py:144-148 | Which columns are absent depends only on the frame's column names. Cleaning therefore cannot change it. |
| `Inference.Project` | mlfastapi.py:148 | `df[ALL_FEATURES]` fails exactly when a catalog column is absent, and then lists the absent columns. Otherwise it gives 24 cells, the i-th being the frame's value for the i-th catalog name. |
| `Inference.ModelInput` | mlfastapi.py:142-148 | The row for the pipeline has 24 cells. Cell i is the record's value for the i-th catalog name: unchanged for the 7 numeric names, cleaned for the 17 categorical ones, which are therefore clean. |
| `Inference.ProjectNormalized` | mlfastapi.py:144-148 | Cleaning the frame and then reordering it, as the code does, gives exactly that row. |
| `Inference.RunPipeline` | mlfastapi.py:153-162 | A score comes back exactly when both the preprocessing step and the predictor succeed, and it is the predictor's value. A failure says which step raised. |
| `Inference.PredictSustainabilityScore` | mlfastapi.py:138-162 | A record lacking a catalog column fails with a key error naming the absent columns, and only such a record fails that way. Otherwise the result is the pipeline run on the reordered, cleaned row. |
| `Classification.BandOf` | mlfastapi.py:200-207 | The four bands are the half-open intervals [80, ∞), [60, 80), [40, 60) and (−∞, 40). Every real score is in exactly one band, including scores outside [0, 100]. |
| `Classification.Label` | mlfastapi.py:200-207 | The top-down `if`/`elif` chain gives the message of the score's band. |
| `Classification.MessageInjective` | mlfastapi.py:200-207 | The four messages are distinct, so a message identifies its band. |
| `Classification.BandMonotone` | mlfastapi.py:200-207 | A higher score never gets a worse band. |
| `Classification.Round2` | mlfastapi.py:210 | The rounded score is a whole number of hundredths, within 0.005 of the score. |
| `Classification.Round2Nearest` | mlfastapi.py:210 | No multiple of 0.01 is closer to the score than the rounded score. |
| `Classification.Round2Tie` | mlfastapi.py:210 | A score exactly halfway between two hundredths goes to the even one. |
| `Classification.Respond` | mlfastapi.py:209-212 | The response's message is the label of the unrounded score. Its reported score is within 0.005 of the true score. |
| `Classification.LabelBeforeRounding` | mlfastapi.py:198-211 | A score of 79.999 is reported as 80.00 but labelled "Good". The label therefore depends on the unrounded score, not the reported one. |
| `Api.ValidatedRow` | mlfastapi.py:142-148 | For a validated record, the pipeline sees the validated numbers unchanged and each categorical string cleaned. Python's `str` of a number never matters on this path. |
| `Api.Predict` | mlfastapi.py:189-219 | A record is rejected exactly when validation fails, with the validator's non-empty error list, and so exactly when it is not acceptable. An accepted record never fails for a missing column. A failing pipeline gives a server error. Otherwise the response carries the label of the unrounded score and the score rounded to within 0.005. |

## Left out

- The FastAPI application object, CORS, the `/` and `/health` endpoints, and `uvicorn` startup. These are HTTP plumbing.
- Loading the artifact with `joblib` and aborting when the load fails. This is file I/O and a foreign library.
- The internals of the preprocessing step and the predictor. They are an opaque trained artifact, modelled as the two functions of `Pipeline`.
- The diagnostic `print` calls. They are output only.
- The mapping of failures to HTTP status codes. Validation errors become 422 and exceptions become 500. `Api.Outcome` only names the three outcomes.
- Floating point. Scores and numeric fields are exact reals, so IEEE rounding, infinities and NaN are not modelled. One consequence: a NaN field value, which passes both the `ge` and `le` checks in the real validator, has no counterpart here.
- Python's string-to-float parsing and `str` of a number. Both are parameters (`parseFloat`, `pyStr`).
- Unicode case folding. `lower` is modelled on ASCII letters only. Whitespace for `strip` is Python's full `str.isspace` set.
- Keys in the request body that the schema does not declare. These are ignored by the validator, and the model never reads them.
- Classification.Respond: its contract bounds the reported score to within 0.005 of the true one. It does not repeat the exact rounding rule, which `Round2` and `Round2Nearest` state.
