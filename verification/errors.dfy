/** The error model of `ValidationError.ts`, plus the two other ways a
    `validate` call can end abnormally: a plain `Error` thrown by some
    validators, and a JavaScript `TypeError` raised by the runtime. */
module Errors {
  import opened Results
  import opened Values

  /** The `details` record of a `ValidationError`. */
  datatype Details = Details(path: string, message: string)

  datatype Err =
    | ValidationError(details: Details)
    | PlainError(text: string)
    | RuntimeTypeError

  /** The top-level message every `ValidationError` carries. */
  const InvalidData: string := "Invalid Data"

  /** `new ValidationError(message, path)`. */
  function NewValidationError(message: string, path: string): (e: Err)
    ensures e.ValidationError?
    ensures e.details.path == path && e.details.message == message
    ensures Message(e) == InvalidData && Name(e) == "ValidationError"
  {
    ValidationError(Details(path, message))
  }

  /** The inherited `message` property: constant for a `ValidationError`,
      the constructor argument for a plain `Error`. */
  function Message(e: Err): string {
    match e
    case ValidationError(_) => InvalidData
    case PlainError(text) => text
    case RuntimeTypeError => ""
  }

  /** The `name` property. */
  function Name(e: Err): string {
    match e
    case ValidationError(_) => "ValidationError"
    case PlainError(_) => "Error"
    case RuntimeTypeError => "TypeError"
  }

  function DetailsJSON(d: Details): Value {
    Obj([("path", Str(d.path)), ("message", Str(d.message))])
  }

  /** `toJSON()`: the top-level message and the details record. */
  function ToJSON(e: Err): (j: Value)
    requires e.ValidationError?
    ensures j.Obj? && Keys(j.fields) == ["message", "details"]
    ensures j.fields[0].1 == Str(InvalidData)
  {
    var j := Obj([("message", Str(Message(e))), ("details", DetailsJSON(e.details))]);
    assert Keys(j.fields) == ["message", "details"];
    j
  }

  /** Reads the details back out of a JSON form; `None` for anything that
      is not exactly the shape `ToJSON` produces. */
  function DetailsFromJSON(j: Value): Option<Details> {
    match j
    case Obj(fields) =>
      if |fields| == 2 && fields[0] == ("message", Str(InvalidData)) && fields[1].0 == "details" then
        match fields[1].1
        case Obj(inner) =>
          if |inner| == 2 && inner[0].0 == "path" && inner[0].1.Str?
             && inner[1].0 == "message" && inner[1].1.Str?
          then Some(Details(inner[0].1.s, inner[1].1.s))
          else None
        case _ => None
      else None
    case _ => None
  }

  /** `toJSON` loses nothing: the details can be read back from it. */
  lemma ToJSONRoundTrip(d: Details)
    ensures DetailsFromJSON(ToJSON(ValidationError(d))) == Some(d)
  {
  }

  /** ... and adds nothing: the only JSON form that reads back as `d` is the
      one `toJSON` produces for `d`. */
  lemma ToJSONExactly(j: Value, d: Details)
    requires DetailsFromJSON(j) == Some(d)
    ensures j == ToJSON(ValidationError(d))
  {
    var fields := j.fields;
    var inner := fields[1].1.fields;
    assert inner == [("path", Str(d.path)), ("message", Str(d.message))];
    assert fields[1] == ("details", DetailsJSON(d));
    assert fields == [("message", Str(InvalidData)), ("details", DetailsJSON(d))];
  }
}
