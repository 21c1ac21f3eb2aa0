/**
 * The request schema `SustainabilityInput`: 24 required fields, each with an
 * attribute name and a JSON alias. Seven are floats bounded below by 0 (three
 * of them also above by 100) and seventeen are strings. Validation follows the
 * behaviour of the declarative validator in lax mode: a field is looked up by
 * its alias and then by its attribute name, a float field also accepts a JSON
 * boolean or a numeric string, a string field accepts only a JSON string, and
 * every failing field is reported, in declaration order.
 */
module Validation {
  import opened Wrappers
  import opened Catalog

  /** A JSON value as it arrives in the request body. */
  datatype Json =
    | JNull
    | JBool(b: bool)
    | JNum(n: real)
    | JStr(s: string)
    | JArray(items: seq<Json>)
    | JObject(members: map<string, Json>)

  /** `float` with `ge` and optional `le`, or `str`. */
  datatype FieldKind = Number(ge: real, le: Option<real>) | Text

  /** One declared field: attribute name, alias, kind. */
  datatype FieldSpec = FieldSpec(name: string, alias: string, kind: FieldKind)

  /** `Field(..., ge=0, le=100)` */
  const Percentage: FieldKind := Number(0.0, Some(100.0))

  /** `Field(..., ge=0)` */
  const NonNegative: FieldKind := Number(0.0, None)

  /** The fields of `SustainabilityInput`, in declaration order. */
  const Schema: seq<FieldSpec> := [
    FieldSpec("recycled_content", "Recycled Content %", Percentage),
    FieldSpec("virgin_content", "Virgin Content %", Percentage),
    FieldSpec("carbon_footprint", "Carbon Footprint (kg CO2e)", NonNegative),
    FieldSpec("water_consumption", "Water Consumption (L)", NonNegative),
    FieldSpec("power_consumption", "Power Consumption (kWh)", NonNegative),
    FieldSpec("packaging_recycled_content", "Packaging Recycled Content %", Percentage),
    FieldSpec("expected_lifespan", "Expected Lifespan (yrs)", NonNegative),
    FieldSpec("base_material", "Base Material", Text),
    FieldSpec("contains_plastic", "Contains Plastic", Text),
    FieldSpec("biodegradable", "Biodegradable", Text),
    FieldSpec("compostable", "Compostable", Text),
    FieldSpec("recyclability_level", "Recyclability Level", Text),
    FieldSpec("reusability", "Reusability", Text),
    FieldSpec("repairability", "Repairability", Text),
    FieldSpec("end_of_life", "End-of-Life", Text),
    FieldSpec("coating_type", "Coating Type", Text),
    FieldSpec("mixed_materials", "Mixed Materials", Text),
    FieldSpec("toxicity_concerns", "Toxicity Concerns", Text),
    FieldSpec("packaging_material", "Packaging Material", Text),
    FieldSpec("packaging_recyclable", "Packaging Recyclable", Text),
    FieldSpec("food_safe", "Food Safe", Text),
    FieldSpec("chemical_leaching_risk", "Chemical Leaching Risk", Text),
    FieldSpec("svhc_presence", "SVHC Presence", Text),
    FieldSpec("plasticizer_type", "Plasticizer Type", Text)
  ]

  /** The error types the validator reports for one field. */
  datatype ErrorKind =
    | Missing
    | FloatType
    | FloatParsing
    | StringType
    | GreaterThanEqual(ge: real)
    | LessThanEqual(le: real)

  /** One entry of the validation error list: where the field was looked for and what went wrong. */
  datatype FieldError = FieldError(loc: string, kind: ErrorKind)

  /** A field is found under its alias first and, failing that, under its attribute name. */
  function Lookup(raw: map<string, Json>, f: FieldSpec): (v: Option<Json>)
    ensures v.None? <==> f.alias !in raw && f.name !in raw
    ensures f.alias in raw ==> v == Some(raw[f.alias])
    ensures f.alias !in raw && f.name in raw ==> v == Some(raw[f.name])
  {
    if f.alias in raw then Some(raw[f.alias])
    else if f.name in raw then Some(raw[f.name])
    else None
  }

  /**
   * The location an error is reported under: a missing field under its alias, any
   * other error under the key whose value failed, the alias or else the attribute name.
   */
  function ErrorLoc(raw: map<string, Json>, f: FieldSpec, kind: ErrorKind): (loc: string)
    ensures loc == f.alias || loc == f.name
    ensures kind.Missing? || Lookup(raw, f).None? ==> loc == f.alias
    ensures !kind.Missing? && Lookup(raw, f).Some? ==> loc in raw && Lookup(raw, f) == Some(raw[loc])
    ensures !kind.Missing? && f.alias in raw ==> loc == f.alias
  {
    if kind.Missing? || f.alias in raw || f.name !in raw then f.alias else f.name
  }

  /**
   * Lax float coercion: a JSON number as is, a boolean as 1 or 0, a string through
   * the float parser (given as a parameter); anything else is the wrong type.
   */
  function AsFloat(v: Json, parseFloat: string -> Option<real>): (r: Result<real, ErrorKind>)
    ensures r.Failure? ==> r.error == FloatType || r.error == FloatParsing
    ensures v.JNum? ==> r == Success(v.n)
    ensures v.JBool? ==> r == Success(if v.b then 1.0 else 0.0)
    ensures v.JStr? ==> (r.Success? <==> parseFloat(v.s).Some?) && (r.Success? ==> r.value == parseFloat(v.s).value)
    ensures v.JNull? || v.JArray? || v.JObject? ==> r == Failure(FloatType)
  {
    match v
    case JNum(n) => Success(n)
    case JBool(b) => Success(if b then 1.0 else 0.0)
    case JStr(s) =>
      (match parseFloat(s)
       case Some(n) => Success(n)
       case None => Failure(FloatParsing))
    case _ => Failure(FloatType)
  }

  /** The outcome of validating one field given what was found for it. */
  function CheckField(f: FieldSpec, v: Option<Json>, parseFloat: string -> Option<real>): (r: Result<Cell, ErrorKind>)
    ensures v.None? ==> r == Failure(Missing)
    ensures r.Success? && f.kind.Text? ==> r.value.Str? && v == Some(JStr(r.value.s))
    ensures r.Success? && f.kind.Number? ==>
      && r.value.Num?
      && v.Some? && AsFloat(v.value, parseFloat) == Success(r.value.n)
      && f.kind.ge <= r.value.n
      && (f.kind.le.Some? ==> r.value.n <= f.kind.le.value)
    ensures r.Failure? && v.Some? && f.kind.Text? ==> r.error == StringType && !v.value.JStr?
  {
    match v
    case None => Failure(Missing)
    case Some(j) =>
      match f.kind
      case Text => if j.JStr? then Success(Str(j.s)) else Failure(StringType)
      case Number(ge, le) =>
        match AsFloat(j, parseFloat)
        case Failure(k) => Failure(k)
        case Success(n) =>
          if le.Some? && n > le.value then Failure(LessThanEqual(le.value))
          else if n < ge then Failure(GreaterThanEqual(ge))
          else Success(Num(n))
  }

  /** The outcome of validating field `f` of request body `raw`. */
  function Outcome(f: FieldSpec, raw: map<string, Json>, parseFloat: string -> Option<real>): Result<Cell, ErrorKind> {
    CheckField(f, Lookup(raw, f), parseFloat)
  }

  /** The errors of the given fields, in their order. */
  function Errors(fields: seq<FieldSpec>, raw: map<string, Json>, parseFloat: string -> Option<real>): (errs: seq<FieldError>)
    ensures forall k :: 0 <= k < |fields| && Outcome(fields[k], raw, parseFloat).Failure? ==>
      FieldError(ErrorLoc(raw, fields[k], Outcome(fields[k], raw, parseFloat).error),
                 Outcome(fields[k], raw, parseFloat).error) in errs
    ensures forall e :: e in errs ==>
      (exists k :: 0 <= k < |fields| && Outcome(fields[k], raw, parseFloat) == Failure(e.kind)
         && e.loc == ErrorLoc(raw, fields[k], e.kind))
    ensures errs == [] <==> forall k :: 0 <= k < |fields| ==> Outcome(fields[k], raw, parseFloat).Success?
  {
    if fields == [] then []
    else
      var rest := Errors(fields[1..], raw, parseFloat);
      assert forall k :: 1 <= k < |fields| ==> fields[k] == fields[1..][k - 1];
      match Outcome(fields[0], raw, parseFloat)
      case Success(_) => rest
      case Failure(kind) => [FieldError(ErrorLoc(raw, fields[0], kind), kind)] + rest
  }

  /**
   * Validation of a request body against the schema: either the 24 validated
   * values in declaration order, or the list of every field that failed.
   */
  function Validate(raw: map<string, Json>, parseFloat: string -> Option<real>): (r: Result<seq<Cell>, seq<FieldError>>)
    ensures r.Success? <==> forall k :: 0 <= k < |Schema| ==> Outcome(Schema[k], raw, parseFloat).Success?
    ensures r.Success? ==> (|r.value| == |Schema|
      && forall k :: 0 <= k < |Schema| ==> Outcome(Schema[k], raw, parseFloat) == Success(r.value[k]))
    ensures r.Failure? ==> r.error != []
    ensures r.Failure? ==> forall k :: 0 <= k < |Schema| && Outcome(Schema[k], raw, parseFloat).Failure? ==>
      FieldError(ErrorLoc(raw, Schema[k], Outcome(Schema[k], raw, parseFloat).error),
                 Outcome(Schema[k], raw, parseFloat).error) in r.error
    ensures r.Failure? ==> forall e :: e in r.error ==>
      (exists k :: 0 <= k < |Schema| && Outcome(Schema[k], raw, parseFloat) == Failure(e.kind)
         && e.loc == ErrorLoc(raw, Schema[k], e.kind))
  {
    var errs := Errors(Schema, raw, parseFloat);
    if errs == [] then
      Success(seq(|Schema|, k requires 0 <= k < |Schema| => Outcome(Schema[k], raw, parseFloat).value))
    else
      Failure(errs)
  }

  /** The three percentage fields: positions 0, 1 and 5 of the numeric list. */
  predicate IsPercentage(k: nat) {
    k == 0 || k == 1 || k == 5
  }

  /** The schema declares the catalog's columns, in the catalog's order, with the stated kinds. */
  lemma SchemaShape()
    ensures |Schema| == |AllFeatures| == 24
    ensures forall k :: 0 <= k < |Schema| ==> Schema[k].alias == AllFeatures[k]
    ensures forall k :: 0 <= k < 7 ==> Schema[k].kind == (if IsPercentage(k) then Percentage else NonNegative)
    ensures forall k :: 7 <= k < |Schema| ==> Schema[k].kind == Text
  {
    CatalogShape();
    NumericFields();
    CategoricalFields();
    assert Schema == Schema[..7] + Schema[7..];
  }

  /** The first seven fields are the numeric columns, three of them percentages. */
  lemma NumericFields()
    ensures |Schema| == 24
    ensures forall k :: 0 <= k < 7 ==> Schema[k].alias == NumericFeatures[k]
    ensures forall k :: 0 <= k < 7 ==> Schema[k].kind == (if IsPercentage(k) then Percentage else NonNegative)
  {
  }

  /** The remaining seventeen fields are the categorical columns, all strings. */
  lemma CategoricalFields()
    ensures |Schema| == 24
    ensures forall k :: 7 <= k < 24 ==> Schema[k].alias == CategoricalFeatures[k - 7] && Schema[k].kind == Text
  {
  }

  /** What the declaration demands of the value found for field `k`. */
  ghost predicate FieldAccepts(k: nat, v: Json, parseFloat: string -> Option<real>) {
    if k < 7 then
      var n := AsFloat(v, parseFloat);
      n.Success? && 0.0 <= n.value && (IsPercentage(k) ==> n.value <= 100.0)
    else
      v.JStr?
  }

  /** Every field is present, each number is within its bounds, each categorical value is a string. */
  ghost predicate Acceptable(raw: map<string, Json>, parseFloat: string -> Option<real>) {
    forall k :: 0 <= k < |Schema| ==>
      Lookup(raw, Schema[k]).Some? && FieldAccepts(k, Lookup(raw, Schema[k]).value, parseFloat)
  }

  lemma OutcomeAccepts(raw: map<string, Json>, parseFloat: string -> Option<real>, k: nat)
    requires k < |Schema|
    ensures Outcome(Schema[k], raw, parseFloat).Success? <==>
      Lookup(raw, Schema[k]).Some? && FieldAccepts(k, Lookup(raw, Schema[k]).value, parseFloat)
  {
    SchemaShape();
  }

  /** A request body passes validation exactly when it is acceptable. */
  lemma ValidateAcceptsIff(raw: map<string, Json>, parseFloat: string -> Option<real>)
    ensures Validate(raw, parseFloat).Success? <==> Acceptable(raw, parseFloat)
  {
    forall k | 0 <= k < |Schema|
      ensures Outcome(Schema[k], raw, parseFloat).Success? <==>
        Lookup(raw, Schema[k]).Some? && FieldAccepts(k, Lookup(raw, Schema[k]).value, parseFloat)
    {
      OutcomeAccepts(raw, parseFloat, k);
    }
  }

  /** The validated record: numbers within their bounds, strings for the categorical fields. */
  lemma ValidatedRanges(raw: map<string, Json>, parseFloat: string -> Option<real>)
    requires Validate(raw, parseFloat).Success?
    ensures var vals := Validate(raw, parseFloat).value;
      && |vals| == |AllFeatures|
      && (forall k :: 0 <= k < 7 ==> vals[k].Num? && 0.0 <= vals[k].n && (IsPercentage(k) ==> vals[k].n <= 100.0))
      && (forall k :: 7 <= k < |vals| ==> vals[k].Str?)
  {
    SchemaShape();
  }

  /** A negative number in any numeric field is rejected and reported under the key it was found at. */
  lemma NegativeRejected(raw: map<string, Json>, parseFloat: string -> Option<real>, k: nat, n: real)
    requires k < 7 && Lookup(raw, Schema[k]).Some?
    requires AsFloat(Lookup(raw, Schema[k]).value, parseFloat) == Success(n) && n < 0.0
    ensures Validate(raw, parseFloat).Failure?
    ensures var key := if Schema[k].alias in raw then Schema[k].alias else Schema[k].name;
      FieldError(key, GreaterThanEqual(0.0)) in Validate(raw, parseFloat).error
  {
    SchemaShape();
    assert Outcome(Schema[k], raw, parseFloat) == Failure(GreaterThanEqual(0.0));
  }

  /** A percentage above 100 is rejected and reported under the key it was found at. */
  lemma AboveHundredRejected(raw: map<string, Json>, parseFloat: string -> Option<real>, k: nat, n: real)
    requires IsPercentage(k) && Lookup(raw, Schema[k]).Some?
    requires AsFloat(Lookup(raw, Schema[k]).value, parseFloat) == Success(n) && n > 100.0
    ensures Validate(raw, parseFloat).Failure?
    ensures var key := if Schema[k].alias in raw then Schema[k].alias else Schema[k].name;
      FieldError(key, LessThanEqual(100.0)) in Validate(raw, parseFloat).error
  {
    SchemaShape();
    assert Schema[k].kind == Percentage;
    assert Outcome(Schema[k], raw, parseFloat) == Failure(LessThanEqual(100.0));
  }

  /** A JSON null for a categorical field is a type error, not a missing value. */
  lemma NullCategoricalRejected(raw: map<string, Json>, parseFloat: string -> Option<real>, k: nat)
    requires 7 <= k < |AllFeatures| && AllFeatures[k] in raw && raw[AllFeatures[k]] == JNull
    ensures Validate(raw, parseFloat).Failure?
    ensures FieldError(AllFeatures[k], StringType) in Validate(raw, parseFloat).error
  {
    SchemaShape();
    assert Outcome(Schema[k], raw, parseFloat) == Failure(StringType);
  }

  /** A field absent under both its alias and its name is reported as missing. */
  lemma AbsentFieldRejected(raw: map<string, Json>, parseFloat: string -> Option<real>, k: nat)
    requires k < |Schema| && Schema[k].alias !in raw && Schema[k].name !in raw
    ensures Validate(raw, parseFloat).Failure?
    ensures FieldError(AllFeatures[k], Missing) in Validate(raw, parseFloat).error
  {
    SchemaShape();
    assert Outcome(Schema[k], raw, parseFloat) == Failure(Missing);
  }

  /** The aliases of the schema's fields, in declaration order. */
  function Aliases(): (r: seq<string>)
    ensures |r| == |Schema|
    ensures forall k :: 0 <= k < |Schema| ==> r[k] == Schema[k].alias
  {
    seq(|Schema|, k requires 0 <= k < |Schema| => Schema[k].alias)
  }

  /** A map from each of the distinct `names` to the value at the same position. */
  function KeyedBy<V>(names: seq<string>, vals: seq<V>): (d: map<string, V>)
    requires |names| == |vals| && NoDuplicates(names)
    ensures forall c :: c in d <==> c in names
    ensures forall k :: 0 <= k < |names| ==> names[k] in d && d[names[k]] == vals[k]
  {
    map k | 0 <= k < |names| :: names[k] := vals[k]
  }

  /** `model_dump(by_alias=True)`: the validated values keyed by their aliases. */
  function ModelDump(vals: seq<Cell>): (d: map<string, Cell>)
    requires |vals| == 24
    ensures forall c :: c in d <==> c in AllFeatures
    ensures forall k :: 0 <= k < |AllFeatures| ==> AllFeatures[k] in d && d[AllFeatures[k]] == vals[k]
  {
    SchemaShape();
    CatalogShape();
    assert Aliases() == AllFeatures;
    KeyedBy(Aliases(), vals)
  }
}
