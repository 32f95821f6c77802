/** The shared configuration record `Valid<T>` of `Validator.ts`, the tree
    of validators built from it, and the two per-class choices that differ
    between the ten validator classes: how `custom()` stores a transform,
    and how `validate` reports a failing transform. */
module Validators {
  import opened Results
  import opened Values

  /** A user-supplied custom transform. */
  type Transform = Value -> Value

  /** The configuration record. The type tag is not a field here: it is
      fixed by the kind of validator (`TypeName`). */
  datatype Config = Config(
    required: bool,
    unknown: Option<bool>,
    min: Option<int>,
    max: Option<int>,
    valid: Option<seq<Value>>,
    invalid: Option<seq<Value>>,
    custom: seq<Transform>)

  /** A validator: its kind, its configuration and, for containers, its
      children (one item validator, or the declared fields in order). The
      `required` flag of the configuration selects between the required
      class of a kind (e.g. `StringValidator`) and the optional one
      (`OptionalStringValidator`). */
  datatype Schema =
    | StringSchema(cfg: Config)
    | NumberSchema(cfg: Config)
    | BooleanSchema(cfg: Config)
    | ArraySchema(cfg: Config, item: Schema)
    | ObjectSchema(cfg: Config, fields: seq<(string, Schema)>)

  /** The `type` tag stored in the configuration. */
  function TypeName(s: Schema): string {
    match s
    case StringSchema(_) => "string"
    case NumberSchema(_) => "number"
    case BooleanSchema(_) => "boolean"
    case ArraySchema(_, _) => "array"
    case ObjectSchema(_, _) => "object"
  }

  /** How `validate` treats the result of a custom transform. */
  datatype CustomPolicy =
      /** A `{ message }` result throws a `ValidationError` at the key;
          anything else becomes the current value. */
    | ReportAtKey
      /** As `ReportAtKey`, and an `undefined` result throws the plain
          error "Invalid custom function". */
    | RejectUndefined
      /** A `{ message }` result throws a plain `Error` whose text embeds
          the message; there is no path. */
    | ReportPlain

  function PolicyOf(s: Schema): CustomPolicy {
    match s
    case BooleanSchema(c) => if c.required then RejectUndefined else ReportPlain
    case ArraySchema(c, _) => if c.required then RejectUndefined else ReportAtKey
    case _ => ReportAtKey
  }

  /** Whether `custom()` appends to a list of transforms (true) or replaces a
      single stored transform (false). */
  predicate AppendsCustom(s: Schema) {
    match s
    case StringSchema(c) => c.required
    case NumberSchema(c) => c.required
    case BooleanSchema(c) => !c.required
    case ArraySchema(_, _) => false
    case ObjectSchema(_, _) => true
  }

  /** The `ValidatorError` failure descriptor a custom transform returns. */
  function ValidatorError(message: string): (v: Value)
    ensures FailureMessage(v) == Some(Str(message))
    ensures Keys(v.fields) == ["message"]
  {
    var v := Obj([("message", Str(message))]);
    assert Keys(v.fields) == ["message"];
    v
  }
}
