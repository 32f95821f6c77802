/** The factory namespace of `tsv.ts`: each factory returns a required
    validator with a fresh configuration. */
module Factories {
  import opened Results
  import opened Values
  import opened Errors
  import opened Validators
  import opened Pipeline
  import opened Scalars
  import opened Validation
  import opened Builders
  import opened Laws
  import Email
  import Composition
  import Text

  function NewNumber(): (r: Schema)
    ensures r.NumberSchema? && r.cfg == FreshConfig(true, false)
  {
    NumberSchema(FreshConfig(true, false))
  }

  function NewString(): (r: Schema)
    ensures r.StringSchema? && r.cfg == FreshConfig(true, false)
  {
    StringSchema(FreshConfig(true, false))
  }

  function NewBoolean(): (r: Schema)
    ensures r.BooleanSchema? && r.cfg == FreshConfig(true, false)
  {
    BooleanSchema(FreshConfig(true, false))
  }

  function NewArray(items: Schema): (r: Schema)
    ensures r.ArraySchema? && r.item == items && r.cfg == FreshConfig(true, false)
  {
    ArraySchema(FreshConfig(true, false), items)
  }

  function NewObject(fields: seq<(string, Schema)>): (r: Schema)
    ensures r.ObjectSchema? && r.fields == fields && r.cfg == FreshConfig(true, true)
  {
    ObjectSchema(FreshConfig(true, true), fields)
  }

  /** A fresh string validator accepts exactly the strings, unchanged. */
  lemma NewStringBehaviour(v: Value, key: string)
    ensures Validate(NewString(), v, key).Success? <==> v.Str?
    ensures v.Str? ==> Validate(NewString(), v, key) == Success(v)
  {
  }

  /** A fresh number validator accepts the numbers unchanged and the
      strings that parse as numbers, and nothing else. */
  lemma NewNumberBehaviour(v: Value, key: string)
    ensures Validate(NewNumber(), v, key).Success? <==> v.Num? || (v.Str? && Text.ParseNum(v.s).Some?)
    ensures v.Num? ==> Validate(NewNumber(), v, key) == Success(v)
  {
  }

  /** A fresh boolean validator accepts the booleans unchanged and the
      strings "true" and "false", and nothing else. */
  lemma NewBooleanBehaviour(v: Value, key: string)
    ensures Validate(NewBoolean(), v, key).Success? <==> v.Bool? || v == Str("true") || v == Str("false")
    ensures v.Bool? ==> Validate(NewBoolean(), v, key) == Success(v)
  {
  }

  /** A fresh object validator with no fields accepts only the empty
      object; `unknown(true)` makes it accept every object unchanged. */
  lemma NewEmptyObjectBehaviour(es: seq<(string, Value)>, key: string)
    ensures Validate(NewObject([]), Obj(es), key).Success? <==> es == []
    ensures Validate(Unknown(NewObject([]), true), Obj(es), key) == Success(Obj(es))
  {
    if es != [] {
      Composition.UnknownKeyRejected(NewObject([]), es, 0, key);
    }
    Composition.UnknownKeysPassThrough(Unknown(NewObject([]), true), es, key);
  }

  /** `string().email()`: a matching address comes back lower-cased, any
      other string fails at the key with "Invalid email address". */
  lemma EmailValidation(t: string, key: string)
    ensures Email.EmailPattern(t) ==> Validate(WithEmail(NewString()), Str(t), key) == Success(Str(Text.Lower(t)))
    ensures !Email.EmailPattern(t) ==>
              Validate(WithEmail(NewString()), Str(t), key) == Failure(ValidationError(Details(key, Email.InvalidEmail)))
  {
    CustomRunsLast(NewString(), Email.EmailTransform, Str(t), key);
    FoldSingle(Email.EmailTransform, Str(t), key, ReportAtKey);
  }
}
