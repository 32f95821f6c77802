/** `validate` over a whole validator tree: the dispatcher, and the array
    and object validators (required and optional classes), which recurse
    into their children. Fail-fast: the first failure anywhere ends the
    call. */
module Validation {
  import opened Results
  import opened Values
  import opened Errors
  import opened Validators
  import opened Pipeline
  import opened Scalars

  /** `validate(value, key)` of whichever class `s` stands for. */
  function Validate(s: Schema, v: Value, key: string): (r: Result<Value, Err>)
    ensures s.cfg.required && v.Undefined? ==>
              r == Failure(Required(if s.ObjectSchema? then "" else key))
    ensures !s.cfg.required && v.Undefined? ==> r == Success(Undefined)
    decreases s, 3, 0
  {
    match s
    case StringSchema(c) =>
      if c.required then StringValidate(c, v, key) else OptionalStringValidate(c, v, key)
    case NumberSchema(c) =>
      if c.required then NumberValidate(c, v, key) else OptionalNumberValidate(c, v, key)
    case BooleanSchema(c) =>
      if c.required then BooleanValidate(c, v, key) else OptionalBooleanValidate(c, v, key)
    case ArraySchema(c, _) =>
      if c.required then ArrayValidate(s, v, key) else OptionalArrayValidate(s, v, key)
    case ObjectSchema(c, _) =>
      if c.required then ObjectValidate(s, v, key) else OptionalObjectValidate(s, v, key)
  }

  // ---- ArrayValidator / OptionalArrayValidator ----

  /** `ArrayValidator.validate`. */
  function ArrayValidate(s: Schema, v: Value, key: string): (r: Result<Value, Err>)
    requires s.ArraySchema?
    ensures v.Undefined? ==> r == Failure(Required(key))
    ensures !v.Undefined? ==> r == ArrayBody(s, v, key, RejectUndefined)
    decreases s, 2, 0
  {
    if v.Undefined? then Failure(Required(key)) else ArrayBody(s, v, key, RejectUndefined)
  }

  /** `OptionalArrayValidator.validate`. */
  function OptionalArrayValidate(s: Schema, v: Value, key: string): (r: Result<Value, Err>)
    requires s.ArraySchema?
    ensures v.Undefined? ==> r == Success(Undefined)
    ensures !v.Undefined? ==> r == ArrayBody(s, v, key, ReportAtKey)
    decreases s, 2, 0
  {
    if v.Undefined? then Success(Undefined) else ArrayBody(s, v, key, ReportAtKey)
  }

  /** Type, element-count bounds, the elements one by one, then the
      transforms on the whole mapped array. */
  function ArrayBody(s: Schema, v: Value, key: string, p: CustomPolicy): (r: Result<Value, Err>)
    requires s.ArraySchema?
    ensures !v.Arr? ==> r == Failure(TypeMismatch("array", key))
    ensures v.Arr? && !WithinBounds(s.cfg, |v.items|) ==> r.Failure? && r.error.ValidationError? && r.error.details.path == key
    ensures r.Success? ==> v.Arr? && WithinBounds(s.cfg, |v.items|) && ValidateElems(s, v.items).Success?
    decreases s, 1, 0
  {
    if !v.Arr? then Failure(TypeMismatch("array", key))
    else
      :- Bounds(s.cfg, |v.items|, key, " elements");
      var out :- ValidateElems(s, v.items);
      Fold(s.cfg.custom, Arr(out), key, p)
  }

  /** Each element through the item validator, in index order, with no key;
      the first failure is returned unchanged. */
  function ValidateElems(s: Schema, xs: seq<Value>): (r: Result<seq<Value>, Err>)
    requires s.ArraySchema?
    ensures r.Success? ==> |r.value| == |xs|
    ensures r.Success? ==> forall i :: 0 <= i < |xs| ==> Validate(s.item, xs[i], "") == Success(r.value[i])
    decreases s, 0, |xs|
  {
    if |xs| == 0 then Success([])
    else
      var head :- Validate(s.item, xs[0], "");
      var tail :- ValidateElems(s, xs[1..]);
      Success([head] + tail)
  }

  // ---- ObjectValidator / OptionalObjectValidator ----

  /** A declared field whose validator is required but whose key the input
      lacks. */
  predicate MissingField(field: (string, Schema), entries: seq<(string, Value)>) {
    field.1.cfg.required && field.0 !in Keys(entries)
  }

  /** The first declared field, in declaration order, that is missing. */
  function FirstMissing(fields: seq<(string, Schema)>, entries: seq<(string, Value)>): (r: Option<nat>)
    ensures r.Some? ==> r.value < |fields| && MissingField(fields[r.value], entries)
    ensures r.Some? ==> forall j :: 0 <= j < r.value ==> !MissingField(fields[j], entries)
    ensures r.None? <==> forall j :: 0 <= j < |fields| ==> !MissingField(fields[j], entries)
    decreases |fields|
  {
    if |fields| == 0 then None
    else if MissingField(fields[0], entries) then Some(0)
    else
      match FirstMissing(fields[1..], entries)
      case None => None
      case Some(i) => Some(i + 1)
  }

  /** `ObjectValidator.validate`. An absent value fails at the empty path;
      `null` passes the `typeof` test and then makes the runtime throw. */
  function ObjectValidate(s: Schema, v: Value, key: string): (r: Result<Value, Err>)
    requires s.ObjectSchema?
    ensures v.Undefined? ==> r == Failure(Required(""))
    ensures v.Str? || v.Num? || v.Bool? || v.Arr? ==> r == Failure(TypeMismatch("object", key))
    ensures v.Null? ==> r == Failure(RuntimeTypeError)
    ensures v.Obj? && FirstMissing(s.fields, v.fields).Some? ==>
              r == Failure(ValidationError(Details(s.fields[FirstMissing(s.fields, v.fields).value].0, "Missing required keys")))
    ensures v.Obj? && FirstMissing(s.fields, v.fields).None? ==> r == ObjectBody(s, v, key, true)
    decreases s, 2, 0
  {
    if v.Undefined? then Failure(Required(""))
    else if TypeOf(v) != "object" || v.Arr? then Failure(TypeMismatch("object", key))
    else if v.Null? then Failure(RuntimeTypeError)
    else
      match FirstMissing(s.fields, v.fields)
      case Some(i) => Failure(ValidationError(Details(s.fields[i].0, "Missing required keys")))
      case None => ObjectBody(s, v, key, true)
  }

  /** `OptionalObjectValidator.validate`: no missing-key check, and fields
      are validated with no key. */
  function OptionalObjectValidate(s: Schema, v: Value, key: string): (r: Result<Value, Err>)
    requires s.ObjectSchema?
    ensures v.Undefined? ==> r == Success(Undefined)
    ensures v.Str? || v.Num? || v.Bool? || v.Arr? ==> r == Failure(TypeMismatch("object", key))
    ensures v.Null? ==> r == Failure(RuntimeTypeError)
    ensures v.Obj? ==> r == ObjectBody(s, v, key, false)
    decreases s, 2, 0
  {
    if v.Undefined? then Success(Undefined)
    else if TypeOf(v) != "object" || v.Arr? then Failure(TypeMismatch("object", key))
    else if v.Null? then Failure(RuntimeTypeError)
    else ObjectBody(s, v, key, false)
  }

  /** The entries one by one, then the transforms on the updated object.
      Success means every entry passed, and with no transforms the result
      is an object with the input's keys; a failure is either the first
      failing entry's error or a transform's failure at the key. */
  function ObjectBody(s: Schema, v: Value, key: string, passKey: bool): (r: Result<Value, Err>)
    requires s.ObjectSchema? && v.Obj?
    ensures r.Success? ==> forall i :: 0 <= i < |v.fields| ==> ValidateEntry(s, v.fields[i], key, passKey).Success?
    ensures r.Success? && s.cfg.custom == [] ==> r.value.Obj? && Keys(r.value.fields) == Keys(v.fields)
    ensures r.Failure? ==>
              || PolicyError(ReportAtKey, key, r.error)
              || FailsFirstAt(s, v.fields, key, passKey, r.error)
    decreases s, 1, 0
  {
    var out :- ValidateEntries(s, v.fields, key, passKey);
    Fold(s.cfg.custom, Obj(out), key, ReportAtKey)
  }

  /** Whether undeclared keys are let through: only when `unknown` is true. */
  predicate AllowsUnknown(c: Config) {
    c.unknown == Some(true)
  }

  /** One input entry: a declared key is validated by its field's validator
      (given the key as path when `passKey`), an undeclared key is kept or
      rejected at the parent's key. */
  function ValidateEntry(s: Schema, entry: (string, Value), key: string, passKey: bool): (r: Result<(string, Value), Err>)
    requires s.ObjectSchema?
    ensures r.Success? ==> r.value.0 == entry.0
    ensures IndexOf(s.fields, entry.0).None? ==>
              r == (if AllowsUnknown(s.cfg) then Success(entry)
                    else Failure(ValidationError(Details(key, "Unknown key not allowed " + entry.0))))
    decreases s, 0, 0
  {
    match IndexOf(s.fields, entry.0)
    case Some(i) =>
      var u :- Validate(s.fields[i].1, entry.1, if passKey then entry.0 else "");
      Success((entry.0, u))
    case None =>
      if AllowsUnknown(s.cfg) then Success(entry)
      else Failure(ValidationError(Details(key, "Unknown key not allowed " + entry.0)))
  }

  /** Entry `i` fails with `e` and every entry before it passes. */
  ghost predicate FailsFirstAt(s: Schema, entries: seq<(string, Value)>, key: string, passKey: bool, e: Err)
    requires s.ObjectSchema?
    decreases s, 0, |entries| + 1
  {
    exists i :: 0 <= i < |entries| && ValidateEntry(s, entries[i], key, passKey) == Failure(e) &&
      forall j :: 0 <= j < i ==> ValidateEntry(s, entries[j], key, passKey).Success?
  }

  /** Every input entry in order; the result has the same keys in the same
      order, and the first failure is returned unchanged. */
  function ValidateEntries(s: Schema, entries: seq<(string, Value)>, key: string, passKey: bool): (r: Result<seq<(string, Value)>, Err>)
    requires s.ObjectSchema?
    ensures r.Success? ==> Keys(r.value) == Keys(entries)
    ensures r.Success? ==> forall i :: 0 <= i < |entries| ==> ValidateEntry(s, entries[i], key, passKey) == Success(r.value[i])
    ensures r.Failure? ==> FailsFirstAt(s, entries, key, passKey, r.error)
    decreases s, 0, |entries| + 2
  {
    if |entries| == 0 then Success([])
    else
      var head :- ValidateEntry(s, entries[0], key, passKey);
      var tail :- ValidateEntries(s, entries[1..], key, passKey);
      Success([head] + tail)
  }
}
