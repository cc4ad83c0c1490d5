/**
 * The first half of the `/predict` handler: check that the JSON body carries the five
 * required fields and turn it into a typed request, coercing `year` and `kms_driven`
 * with `int`.
 */
module Validation {
  import opened Wrappers
  import opened Decimal

  /** The JSON object of the request, each field as text. */
  type Content = map<string, string>

  const RequiredFields: seq<string> := ["company", "name", "year", "fuel_type", "kms_driven"]

  datatype PredictionRequest = PredictionRequest(
    company: string,
    name: string,
    year: int,
    fuelType: string,
    kmsDriven: int)

  datatype ValidationError =
    | MissingFields                              // the body is absent or empty, or lacks a required field
    | NotAnInteger(field: string, text: string)  // `int` rejects the text of `year` or `kms_driven`

  predicate HasRequiredFields(m: Content) {
    forall f :: f in RequiredFields ==> f in m
  }

  /** The message of the exception the handler raises or meets: a fixed sentence, or one quoting the rejected text. */
  function ErrorMessage(e: ValidationError): (text: string)
    ensures e.MissingFields? ==> text == "Missing one or more required fields"
    ensures e.NotAnInteger? ==>
              && |text| == |e.text| + 42
              && text[..41] == "invalid literal for int() with base 10: '"
              && text[41..|text| - 1] == e.text
              && text[|text| - 1] == '\''
  {
    match e
    case MissingFields => "Missing one or more required fields"
    case NotAnInteger(_, text) => "invalid literal for int() with base 10: '" + text + "'"
  }

  /** Presence check, then extraction in source order: `year` is coerced before `kms_driven`. */
  function Validate(content: Option<Content>): (r: Result<PredictionRequest, ValidationError>)
    ensures r == Failure(MissingFields) <==>
              content.None? || exists f :: f in RequiredFields && f !in content.value
    ensures r.Success? <==>
              && content.Some? && HasRequiredFields(content.value)
              && IsDecimalLiteral(content.value["year"])
              && IsDecimalLiteral(content.value["kms_driven"])
    ensures r.Failure? && r.error.NotAnInteger? ==>
              && content.Some? && HasRequiredFields(content.value)
              && (r.error.field == "year" || r.error.field == "kms_driven")
              && r.error.text == content.value[r.error.field]
              && !IsDecimalLiteral(r.error.text)
              && (r.error.field == "kms_driven" ==> IsDecimalLiteral(content.value["year"]))
    ensures r.Success? ==>
              && r.value.company == content.value["company"]
              && r.value.name == content.value["name"]
              && r.value.fuelType == content.value["fuel_type"]
              && ParseInt(content.value["year"]) == Some(r.value.year)
              && ParseInt(content.value["kms_driven"]) == Some(r.value.kmsDriven)
  {
    if content.None? || |content.value| == 0 || !HasRequiredFields(content.value) then
      Failure(MissingFields)
    else
      var m := content.value;
      match ParseInt(m["year"])
      case None => Failure(NotAnInteger("year", m["year"]))
      case Some(year) =>
        match ParseInt(m["kms_driven"])
        case None => Failure(NotAnInteger("kms_driven", m["kms_driven"]))
        case Some(kms) => Success(PredictionRequest(m["company"], m["name"], year, m["fuel_type"], kms))
  }

  /** The JSON body a client sends for `req`, the numbers written in decimal. */
  function ToContent(req: PredictionRequest): (m: Content)
    ensures HasRequiredFields(m)
  {
    map[
      "company" := req.company,
      "name" := req.name,
      "year" := IntToString(req.year),
      "fuel_type" := req.fuelType,
      "kms_driven" := IntToString(req.kmsDriven)]
  }

  /** Every typed request survives being sent as JSON and validated again. */
  lemma ValidateToContent(req: PredictionRequest)
    ensures Validate(Some(ToContent(req))) == Success(req)
  {
    ParseIntToString(req.year);
    ParseIntToString(req.kmsDriven);
    assert "company" in ToContent(req);
  }
}
