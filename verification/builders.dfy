/** The fluent configuration calls and the required/optional conversions,
    as pure functions from a validator to the updated validator. The source
    mutates a configuration object shared by both handles of a pair; here
    each call returns a copy with one field changed. */
module Builders {
  import opened Results
  import opened Values
  import opened Validators
  import Email

  /** A fresh configuration as the constructors create it: no bounds, no
      lists, no transforms, and `unknown` set to false for objects only. */
  function FreshConfig(required: bool, isObject: bool): (c: Config)
    ensures c.required == required
    ensures c.min.None? && c.max.None? && c.valid.None? && c.invalid.None? && c.custom == []
    ensures c.unknown.Some? <==> isObject
    ensures isObject ==> c.unknown == Some(false)
  {
    Config(required, if isObject then Some(false) else None, None, None, None, None, [])
  }

  /** `s` with its configuration replaced by `c`: same kind, same
      children. */
  function WithConfig(s: Schema, c: Config): (r: Schema)
    ensures r.cfg == c && TypeName(r) == TypeName(s)
    ensures r.ArraySchema? ==> r.item == s.item
    ensures r.ObjectSchema? ==> r.fields == s.fields
  {
    match s
    case StringSchema(_) => StringSchema(c)
    case NumberSchema(_) => NumberSchema(c)
    case BooleanSchema(_) => BooleanSchema(c)
    case ArraySchema(_, item) => ArraySchema(c, item)
    case ObjectSchema(_, fields) => ObjectSchema(c, fields)
  }

  /** `r` is `s` with only its configuration replaced. */
  ghost predicate SameShape(r: Schema, s: Schema) {
    r == WithConfig(s, r.cfg)
  }

  /** The classes with `min`/`max`: string, number and array, both forms. */
  predicate HasBounds(s: Schema) {
    s.StringSchema? || s.NumberSchema? || s.ArraySchema?
  }

  /** The classes with `whitelist`/`blacklist`: `StringValidator`, and the
      number validators of both forms. */
  predicate HasLists(s: Schema) {
    (s.StringSchema? && s.cfg.required) || s.NumberSchema?
  }

  function Min(s: Schema, n: int): (r: Schema)
    requires HasBounds(s)
    ensures SameShape(r, s) && r.cfg.min == Some(n)
    ensures r.cfg.(min := s.cfg.min) == s.cfg
  {
    WithConfig(s, s.cfg.(min := Some(n)))
  }

  function Max(s: Schema, n: int): (r: Schema)
    requires HasBounds(s)
    ensures SameShape(r, s) && r.cfg.max == Some(n)
    ensures r.cfg.(max := s.cfg.max) == s.cfg
  {
    WithConfig(s, s.cfg.(max := Some(n)))
  }

  function Whitelist(s: Schema, values: seq<Value>): (r: Schema)
    requires HasLists(s)
    ensures SameShape(r, s) && r.cfg.valid == Some(values)
    ensures r.cfg.(valid := s.cfg.valid) == s.cfg
  {
    WithConfig(s, s.cfg.(valid := Some(values)))
  }

  function Blacklist(s: Schema, values: seq<Value>): (r: Schema)
    requires HasLists(s)
    ensures SameShape(r, s) && r.cfg.invalid == Some(values)
    ensures r.cfg.(invalid := s.cfg.invalid) == s.cfg
  {
    WithConfig(s, s.cfg.(invalid := Some(values)))
  }

  /** `custom(f)`: appended to the list by the appending classes, stored as
      the single transform by the others. */
  function Custom(s: Schema, f: Transform): (r: Schema)
    ensures SameShape(r, s)
    ensures r.cfg.(custom := s.cfg.custom) == s.cfg
    ensures AppendsCustom(s) ==> |r.cfg.custom| == |s.cfg.custom| + 1 && r.cfg.custom[..|s.cfg.custom|] == s.cfg.custom
    ensures |r.cfg.custom| > 0 && r.cfg.custom[|r.cfg.custom| - 1] == f
    ensures !AppendsCustom(s) ==> |r.cfg.custom| == 1
  {
    var fs := if AppendsCustom(s) then s.cfg.custom + [f] else [f];
    assert AppendsCustom(s) ==> fs[..|s.cfg.custom|] == s.cfg.custom;
    WithConfig(s, s.cfg.(custom := fs))
  }

  /** `StringValidator.email()`: appends the e-mail transform. */
  function WithEmail(s: Schema): (r: Schema)
    requires s.StringSchema? && s.cfg.required
    ensures r.StringSchema? && r.cfg.custom == s.cfg.custom + [Email.EmailTransform]
    ensures r.cfg.(custom := s.cfg.custom) == s.cfg
  {
    Custom(s, Email.EmailTransform)
  }

  /** `optional()`: the same configuration with `required` cleared. The
      object validator has no `optional()`. */
  function AsOptional(s: Schema): (r: Schema)
    requires s.cfg.required && !s.ObjectSchema?
    ensures SameShape(r, s) && !r.cfg.required
    ensures r.cfg.(required := true) == s.cfg
  {
    WithConfig(s, s.cfg.(required := false))
  }

  /** `required()`: the same configuration with `required` set. The optional
      object validator has no `required()`. */
  function AsRequired(s: Schema): (r: Schema)
    requires !s.cfg.required && !s.ObjectSchema?
    ensures SameShape(r, s) && r.cfg.required
    ensures r.cfg.(required := false) == s.cfg
  {
    WithConfig(s, s.cfg.(required := true))
  }

  /** `unknown(enabled)`: sets the flag; the returned handle is of the same
      class (required or optional) as the receiver. */
  function Unknown(s: Schema, enabled: bool): (r: Schema)
    requires s.ObjectSchema?
    ensures SameShape(r, s) && r.cfg.unknown == Some(enabled)
    ensures r.cfg.(unknown := s.cfg.unknown) == s.cfg
  {
    WithConfig(s, s.cfg.(unknown := Some(enabled)))
  }

  /** `new OptionalObjectValidator(fields)`: the only way to obtain an
      optional object validator, as `ObjectValidator` has no `optional()`. */
  function NewOptionalObject(fields: seq<(string, Schema)>): (r: Schema)
    ensures r.ObjectSchema? && r.fields == fields
    ensures !r.cfg.required && r.cfg.unknown == Some(false) && r.cfg.custom == []
  {
    ObjectSchema(FreshConfig(false, true), fields)
  }
}
