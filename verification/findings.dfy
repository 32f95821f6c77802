/** How the source actually stores custom transforms, kept apart from the
    rest of the model. The configuration field holds nothing, one function
    or an array, depending on which class created it and which class last
    called `custom()`; the single-slot classes call whatever is stored, and
    the list classes iterate it. A required/optional pair shares one
    record, so after a conversion the reading class can meet the other
    class's representation, and JavaScript then throws a `TypeError`. The
    rest of the model stores a sequence throughout (`Config.custom`). */
module Findings {
  import opened Results
  import opened Values
  import opened Errors
  import opened Validators
  import opened Pipeline
  import opened Scalars
  import opened Validation
  import opened Builders
  import opened Factories

  /** The `custom` field as the source stores it. */
  datatype Slot = Unset | Single(f: Transform) | Many(fs: seq<Transform>)

  /** `if (custom) { result = custom(value) ... }`: an array is truthy but
      not callable. */
  function CallSlot(slot: Slot, v: Value, key: string, p: CustomPolicy): (r: Result<Value, Err>)
    ensures slot.Unset? ==> r == Success(v)
    ensures slot.Many? ==> r == Failure(RuntimeTypeError)
    ensures slot.Single? ==> r == Fold([slot.f], v, key, p)
  {
    match slot
    case Unset => Success(v)
    case Single(f) => FoldSingle(f, v, key, p); Step(p, f(v), key)
    case Many(_) => Failure(RuntimeTypeError)
  }

  /** `for (const custom of this.metadata.custom)`: neither `undefined` nor
      a function is iterable. */
  function IterateSlot(slot: Slot, v: Value, key: string, p: CustomPolicy): (r: Result<Value, Err>)
    ensures slot.Many? ==> r == Fold(slot.fs, v, key, p)
    ensures !slot.Many? ==> r == Failure(RuntimeTypeError)
  {
    match slot
    case Many(fs) => Fold(fs, v, key, p)
    case _ => Failure(RuntimeTypeError)
  }

  /** `OptionalStringValidator.validate` as written: the checks of the
      model, then the stored slot called as a function. */
  function OptionalStringValidateAsWritten(c: Config, slot: Slot, v: Value, key: string): (r: Result<Value, Err>)
    ensures v.Undefined? ==> r == Success(Undefined)
    ensures v.Str? && WithinBounds(c, |v.s|) ==> r == CallSlot(slot, v, key, ReportAtKey)
    ensures !v.Undefined? && !v.Str? ==> r == OptionalStringValidate(c, v, key)
    ensures v.Str? && !WithinBounds(c, |v.s|) ==> r == OptionalStringValidate(c, v, key)
  {
    if v.Undefined? then Success(Undefined)
    else if !v.Str? then Failure(TypeMismatch("string", key))
    else
      :- Bounds(c, |v.s|, key, "");
      CallSlot(slot, v, key, ReportAtKey)
  }

  /** `OptionalNumberValidator.validate` as written: coercion, type, bounds
      and lists as in the model, then the stored slot called as a
      function. */
  function OptionalNumberValidateAsWritten(c: Config, slot: Slot, v: Value, key: string): (r: Result<Value, Err>)
    ensures v.Undefined? ==> r == Success(Undefined)
    ensures v.Num? && WithinBounds(c, v.n) && ListsAllow(c, v) ==> r == CallSlot(slot, v, key, ReportAtKey)
    ensures !v.Undefined? && NumberChecks(c.(custom := []), v, key).Failure? ==>
              r == NumberChecks(c.(custom := []), v, key)
  {
    if v.Undefined? then Success(Undefined)
    else
      var u :- NumberChecks(c.(custom := []), v, key);
      CallSlot(slot, u, key, ReportAtKey)
  }

  /** `OptionalBooleanValidator.validate` as written: coercion and type
      check, then the stored slot iterated. */
  function OptionalBooleanValidateAsWritten(slot: Slot, v: Value, key: string): (r: Result<Value, Err>)
    ensures v.Undefined? ==> r == Success(Undefined)
    ensures v.Bool? ==> r == IterateSlot(slot, v, key, ReportPlain)
    ensures !v.Undefined? && !v.Bool? && v != Str("true") && v != Str("false") ==>
              forall c :: r == OptionalBooleanValidate(c, v, key)
  {
    if v.Undefined? then Success(Undefined)
    else
      var u :- CoerceBoolean(v, key);
      if !u.Bool? then Failure(TypeMismatch("boolean", key))
      else IterateSlot(slot, u, key, ReportPlain)
  }

  /** `string()` stores an empty array, which `optional()` shares: the
      optional handle then throws on every present string. */
  lemma OptionalStringThrows(t: string, key: string)
    ensures OptionalStringValidateAsWritten(FreshConfig(false, false), Many([]), Str(t), key) == Failure(RuntimeTypeError)
  {
  }

  /** `number()` stores an empty array, which `optional()` shares, and
      `custom()` on the required handle pushes onto it: the optional handle
      then throws on every number, with or without transforms. */
  lemma OptionalNumberThrows(n: int, fs: seq<Transform>, key: string)
    ensures OptionalNumberValidateAsWritten(FreshConfig(false, false), Many(fs), Num(n), key) == Failure(RuntimeTypeError)
  {
  }

  /** `boolean()` stores nothing, which `optional()` shares: the optional
      handle then throws on every present boolean. */
  lemma OptionalBooleanThrows(b: bool, key: string)
    ensures OptionalBooleanValidateAsWritten(Unset, Bool(b), key) == Failure(RuntimeTypeError)
  {
  }

  /** The intended behaviour, which the model has: `string().optional()`
      returns every string unchanged, and with transforms added through
      the required handle it runs them in order. */
  lemma OptionalStringIntended(t: string, fs: seq<Transform>, key: string)
    ensures Validate(AsOptional(NewString()), Str(t), key) == Success(Str(t))
    ensures Validate(AsOptional(WithConfig(NewString(), NewString().cfg.(custom := fs))), Str(t), key) ==
              Fold(fs, Str(t), key, ReportAtKey)
  {
  }

  /** The intended behaviour, which the model has: `number().optional()`
      returns every number unchanged, and `number().custom(f).optional()`
      runs `f` once. */
  lemma OptionalNumberIntended(n: int, f: Transform, key: string)
    ensures Validate(AsOptional(NewNumber()), Num(n), key) == Success(Num(n))
    ensures Validate(AsOptional(Custom(NewNumber(), f)), Num(n), key) == Step(ReportAtKey, f(Num(n)), key)
  {
    var s := AsOptional(Custom(NewNumber(), f));
    assert s.cfg.custom == [f];
    FoldSingle(f, Num(n), key, ReportAtKey);
  }

  /** The intended behaviour, which the model has: `boolean().optional()`
      returns every boolean unchanged. */
  lemma OptionalBooleanIntended(b: bool, key: string)
    ensures Validate(AsOptional(NewBoolean()), Bool(b), key) == Success(Bool(b))
    ensures Validate(AsOptional(NewBoolean()), Str("true"), key) == Success(Bool(true))
  {
  }
}
