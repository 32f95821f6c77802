/** `validate` of the six scalar validator classes, and the checks they
    share: the inclusive length/value bounds (skipped when the bound is 0),
    the allow/deny lists, and the string-to-number and string-to-boolean
    coercions. */
module Scalars {
  import opened Results
  import opened Values
  import opened Errors
  import opened Validators
  import opened Pipeline
  import Text

  function Required(key: string): Err {
    ValidationError(Details(key, "Required"))
  }

  function TypeMismatch(typeName: string, key: string): Err {
    ValidationError(Details(key, "Invalid type expected: " + typeName))
  }

  /** A bound is enforced only when it is set and not 0 (0 is falsy). */
  predicate Enforced(bound: Option<int>) {
    bound.Some? && bound.value != 0
  }

  /** The measured quantity respects every enforced bound, both inclusive. */
  predicate WithinBounds(c: Config, n: int) {
    && (Enforced(c.min) ==> c.min.value <= n)
    && (Enforced(c.max) ==> n <= c.max.value)
  }

  /** `v` is on the allow-list if there is one, and off the deny-list if
      there is one. */
  predicate ListsAllow(c: Config, v: Value) {
    && (c.valid.Some? ==> v in c.valid.value)
    && (c.invalid.Some? ==> v !in c.invalid.value)
  }

  function BelowMinimum(c: Config, key: string, unit: string): Err
    requires c.min.Some?
  {
    ValidationError(Details(key, "Minimum of " + Text.IntToString(c.min.value) + unit + " required"))
  }

  function AboveMaximum(c: Config, key: string, unit: string): Err
    requires c.max.Some?
  {
    ValidationError(Details(key, "Maximum of " + Text.IntToString(c.max.value) + unit + " required"))
  }

  /** The minimum is checked before the maximum. `unit` is " characters"
      for strings, " elements" for arrays and empty for numbers and for
      optional strings. */
  function Bounds(c: Config, n: int, key: string, unit: string): (r: Check<Err>)
    ensures r.Pass? <==> WithinBounds(c, n)
    ensures Enforced(c.min) && n < c.min.value ==> r == Fail(BelowMinimum(c, key, unit))
    ensures !WithinBounds(c, n) && !(Enforced(c.min) && n < c.min.value) ==> r == Fail(AboveMaximum(c, key, unit))
  {
    if Enforced(c.min) && n < c.min.value then Fail(BelowMinimum(c, key, unit))
    else if Enforced(c.max) && n > c.max.value then Fail(AboveMaximum(c, key, unit))
    else Pass
  }

  function NotAllowed(c: Config, key: string): Err
    requires c.valid.Some?
  {
    ValidationError(Details(key, "Invalid value, must be one of: " + JoinValues(c.valid.value, ", ")))
  }

  function Denied(c: Config, key: string): Err
    requires c.invalid.Some?
  {
    ValidationError(Details(key, "Invalid value, must NOT be one of: " + JoinValues(c.invalid.value, ", ")))
  }

  /** The allow-list is checked before the deny-list. */
  function Lists(c: Config, v: Value, key: string): (r: Check<Err>)
    ensures r.Pass? <==> ListsAllow(c, v)
    ensures c.valid.Some? && v !in c.valid.value ==> r == Fail(NotAllowed(c, key))
    ensures !ListsAllow(c, v) && !(c.valid.Some? && v !in c.valid.value) ==> r == Fail(Denied(c, key))
  {
    if c.valid.Some? && v !in c.valid.value then Fail(NotAllowed(c, key))
    else if c.invalid.Some? && v in c.invalid.value then Fail(Denied(c, key))
    else Pass
  }

  /** Every failure a check or a pipeline under `ReportAtKey` raises is a
      `ValidationError` located at `key`. */
  predicate AtKey(r: Result<Value, Err>, key: string) {
    r.Failure? ==> r.error.ValidationError? && r.error.details.path == key
  }

  // ---- StringValidator / OptionalStringValidator ----

  /** `StringValidator.validate`: presence, type (no coercion), length
      bounds, allow-list, deny-list, then the transforms. */
  function StringValidate(c: Config, v: Value, key: string): (r: Result<Value, Err>)
    ensures v.Undefined? ==> r == Failure(Required(key))
    ensures !v.Undefined? && !v.Str? ==> r == Failure(TypeMismatch("string", key))
    ensures v.Str? ==>
              (r.Success? <==> WithinBounds(c, |v.s|) && ListsAllow(c, v) && Fold(c.custom, v, key, ReportAtKey).Success?)
    ensures r.Success? ==> v.Str? && r == Fold(c.custom, v, key, ReportAtKey)
    ensures v.Str? && !Bounds(c, |v.s|, key, " characters").Pass? ==>
              r == Failure(Bounds(c, |v.s|, key, " characters").error)
    ensures v.Str? && Bounds(c, |v.s|, key, " characters").Pass? && !Lists(c, v, key).Pass? ==>
              r == Failure(Lists(c, v, key).error)
    ensures AtKey(r, key)
  {
    if v.Undefined? then Failure(Required(key))
    else if TypeOf(v) != "string" then Failure(TypeMismatch("string", key))
    else
      :- Bounds(c, |v.s|, key, " characters");
      :- Lists(c, v, key);
      Fold(c.custom, v, key, ReportAtKey)
  }

  /** `OptionalStringValidator.validate`: as the required form, except that
      an absent value is returned as is, the bound messages carry no unit,
      and the allow/deny lists are never consulted. */
  function OptionalStringValidate(c: Config, v: Value, key: string): (r: Result<Value, Err>)
    ensures v.Undefined? ==> r == Success(Undefined)
    ensures !v.Undefined? && !v.Str? ==> r == Failure(TypeMismatch("string", key))
    ensures v.Str? ==>
              (r.Success? <==> WithinBounds(c, |v.s|) && Fold(c.custom, v, key, ReportAtKey).Success?)
    ensures r.Success? && v.Str? ==> r == Fold(c.custom, v, key, ReportAtKey)
    ensures v.Str? && !Bounds(c, |v.s|, key, "").Pass? ==> r == Failure(Bounds(c, |v.s|, key, "").error)
    ensures AtKey(r, key)
  {
    if v.Undefined? then Success(Undefined)
    else if TypeOf(v) != "string" then Failure(TypeMismatch("string", key))
    else
      :- Bounds(c, |v.s|, key, "");
      Fold(c.custom, v, key, ReportAtKey)
  }

  // ---- NumberValidator / OptionalNumberValidator ----

  /** A string is parsed as a number; anything else is passed on as is. */
  function CoerceNumber(v: Value, key: string): (r: Result<Value, Err>)
    ensures !v.Str? ==> r == Success(v)
    ensures v.Str? && Text.ParseNum(v.s).Some? ==> r == Success(Num(Text.ParseNum(v.s).value))
    ensures v.Str? && Text.ParseNum(v.s).None? ==> r == Failure(ValidationError(Details(key, "Invalid number")))
  {
    if v.Str? then
      match Text.ParseNum(v.s)
      case None => Failure(ValidationError(Details(key, "Invalid number")))
      case Some(n) => Success(Num(n))
    else Success(v)
  }

  /** Everything both number classes do once the value is present. */
  function NumberChecks(c: Config, v: Value, key: string): (r: Result<Value, Err>)
    requires !v.Undefined?
    ensures v.Num? ==>
              (r.Success? <==> WithinBounds(c, v.n) && ListsAllow(c, v) && Fold(c.custom, v, key, ReportAtKey).Success?)
    ensures v.Num? && r.Success? ==> r == Fold(c.custom, v, key, ReportAtKey)
    ensures v.Num? && !Bounds(c, v.n, key, "").Pass? ==> r == Failure(Bounds(c, v.n, key, "").error)
    ensures v.Num? && Bounds(c, v.n, key, "").Pass? && !Lists(c, v, key).Pass? ==>
              r == Failure(Lists(c, v, key).error)
    ensures v.Bool? || v.Null? || v.Arr? || v.Obj? ==> r == Failure(TypeMismatch("number", key))
    ensures AtKey(r, key)
  {
    var u :- CoerceNumber(v, key);
    if TypeOf(u) != "number" then Failure(TypeMismatch("number", key))
    else
      :- Bounds(c, u.n, key, "");
      :- Lists(c, u, key);
      Fold(c.custom, u, key, ReportAtKey)
  }

  /** `NumberValidator.validate`. */
  function NumberValidate(c: Config, v: Value, key: string): (r: Result<Value, Err>)
    ensures v.Undefined? ==> r == Failure(Required(key))
    ensures !v.Undefined? ==> r == NumberChecks(c, v, key)
    ensures AtKey(r, key)
  {
    if v.Undefined? then Failure(Required(key)) else NumberChecks(c, v, key)
  }

  /** `OptionalNumberValidator.validate`. */
  function OptionalNumberValidate(c: Config, v: Value, key: string): (r: Result<Value, Err>)
    ensures v.Undefined? ==> r == Success(Undefined)
    ensures !v.Undefined? ==> r == NumberChecks(c, v, key)
    ensures AtKey(r, key)
  {
    if v.Undefined? then Success(Undefined) else NumberChecks(c, v, key)
  }

  // ---- BooleanValidator / OptionalBooleanValidator ----

  const NotBoolean: string := "String cannot be converted to true/false"

  /** "true" and "false" become booleans, any other string is rejected, and
      a non-string is passed on as is. */
  function CoerceBoolean(v: Value, key: string): (r: Result<Value, Err>)
    ensures !v.Str? ==> r == Success(v)
    ensures v == Str("true") ==> r == Success(Bool(true))
    ensures v == Str("false") ==> r == Success(Bool(false))
    ensures v.Str? && v.s != "true" && v.s != "false" ==> r == Failure(ValidationError(Details(key, NotBoolean)))
  {
    if v.Str? then
      if v.s == "true" then Success(Bool(true))
      else if v.s == "false" then Success(Bool(false))
      else Failure(ValidationError(Details(key, NotBoolean)))
    else Success(v)
  }

  /** `BooleanValidator.validate`: presence, coercion, type, then the
      transforms, where an `undefined` result is a plain error. There are
      no bounds and no allow/deny lists. */
  function BooleanValidate(c: Config, v: Value, key: string): (r: Result<Value, Err>)
    ensures v.Undefined? ==> r == Failure(Required(key))
    ensures v.Bool? ==> r == Fold(c.custom, v, key, RejectUndefined)
    ensures v.Num? || v.Null? || v.Arr? || v.Obj? ==> r == Failure(TypeMismatch("boolean", key))
    ensures r.Failure? ==> PolicyError(RejectUndefined, key, r.error)
  {
    if v.Undefined? then Failure(Required(key))
    else
      var u :- CoerceBoolean(v, key);
      if TypeOf(u) != "boolean" then Failure(TypeMismatch("boolean", key))
      else Fold(c.custom, u, key, RejectUndefined)
  }

  /** `OptionalBooleanValidator.validate`: a failing transform raises a
      plain error with no path. */
  function OptionalBooleanValidate(c: Config, v: Value, key: string): (r: Result<Value, Err>)
    ensures v.Undefined? ==> r == Success(Undefined)
    ensures v.Bool? ==> r == Fold(c.custom, v, key, ReportPlain)
    ensures v.Num? || v.Null? || v.Arr? || v.Obj? ==> r == Failure(TypeMismatch("boolean", key))
  {
    if v.Undefined? then Success(Undefined)
    else
      var u :- CoerceBoolean(v, key);
      if TypeOf(u) != "boolean" then Failure(TypeMismatch("boolean", key))
      else Fold(c.custom, u, key, ReportPlain)
  }
}
