/** Laws of `validate` over whole validator trees: where the transforms
    run, what a bound of 0 means, how arrays and objects compose the
    results of their children, and how the fluent calls change behaviour. */
module Laws {
  import opened Results
  import opened Values
  import opened Errors
  import opened Validators
  import opened Pipeline
  import opened Scalars
  import opened Validation
  import opened Builders
  import Text

  /** `s` with no transforms: the built-in checks alone. */
  function ClearCustom(s: Schema): (r: Schema)
    ensures SameShape(r, s) && r.cfg.custom == []
    ensures r.cfg.(custom := s.cfg.custom) == s.cfg
  {
    WithConfig(s, s.cfg.(custom := []))
  }

  lemma WithConfigTwice(s: Schema, c1: Config, c2: Config)
    ensures WithConfig(WithConfig(s, c1), c2) == WithConfig(s, c2)
  {
  }

  lemma WithConfigSame(s: Schema)
    ensures WithConfig(s, s.cfg) == s
  {
  }

  // ---- children depend only on the children ----

  lemma {:induction false} ElemsDependOnItem(s1: Schema, s2: Schema, xs: seq<Value>)
    requires s1.ArraySchema? && s2.ArraySchema? && s1.item == s2.item
    ensures ValidateElems(s1, xs) == ValidateElems(s2, xs)
    decreases |xs|
  {
    if |xs| > 0 {
      ElemsDependOnItem(s1, s2, xs[1..]);
    }
  }

  lemma {:induction false} EntriesDependOnFields(s1: Schema, s2: Schema, entries: seq<(string, Value)>, key: string, passKey: bool)
    requires s1.ObjectSchema? && s2.ObjectSchema?
    requires s1.fields == s2.fields && AllowsUnknown(s1.cfg) == AllowsUnknown(s2.cfg)
    ensures ValidateEntries(s1, entries, key, passKey) == ValidateEntries(s2, entries, key, passKey)
    decreases |entries|
  {
    if |entries| > 0 {
      assert ValidateEntry(s1, entries[0], key, passKey) == ValidateEntry(s2, entries[0], key, passKey);
      EntriesDependOnFields(s1, s2, entries[1..], key, passKey);
    }
  }

  // ---- the transforms run last ----

  /** Every `validate` is its built-in checks followed by its transforms: a
      failing check means no transform runs, and the transforms receive the
      checked (coerced, mapped) value. An absent value given to an optional
      validator never reaches them. */
  lemma ValidateSplitsAtCustom(s: Schema, v: Value, key: string)
    ensures !s.cfg.required && v.Undefined? ==> Validate(s, v, key) == Success(Undefined)
    ensures !(!s.cfg.required && v.Undefined?) ==>
              Validate(s, v, key) == Then(Validate(ClearCustom(s), v, key), s.cfg.custom, key, PolicyOf(s))
  {
    if !s.cfg.required && v.Undefined? {
    } else if v.Undefined? {
      assert Validate(ClearCustom(s), v, key).Failure?;
    } else {
      match s
      case StringSchema(c) => StringSplits(c, v, key);
      case NumberSchema(c) => NumberSplits(c, v, key);
      case BooleanSchema(c) => BooleanSplits(c, v, key);
      case ArraySchema(c, _) => ArraySplits(s, v, key);
      case ObjectSchema(c, _) => ObjectSplits(s, v, key);
    }
  }

  lemma StringSplits(c: Config, v: Value, key: string)
    requires !v.Undefined?
    ensures var c0 := c.(custom := []);
            && StringValidate(c, v, key) == Then(StringValidate(c0, v, key), c.custom, key, ReportAtKey)
            && OptionalStringValidate(c, v, key) == Then(OptionalStringValidate(c0, v, key), c.custom, key, ReportAtKey)
  {
    var c0 := c.(custom := []);
    if v.Str? {
      assert Bounds(c, |v.s|, key, " characters") == Bounds(c0, |v.s|, key, " characters");
      assert Bounds(c, |v.s|, key, "") == Bounds(c0, |v.s|, key, "");
      assert Lists(c, v, key) == Lists(c0, v, key);
    }
  }

  lemma NumberSplits(c: Config, v: Value, key: string)
    requires !v.Undefined?
    ensures var c0 := c.(custom := []);
            NumberChecks(c, v, key) == Then(NumberChecks(c0, v, key), c.custom, key, ReportAtKey)
  {
    var c0 := c.(custom := []);
    var u := CoerceNumber(v, key);
    if u.Success? && u.value.Num? {
      assert Bounds(c, u.value.n, key, "") == Bounds(c0, u.value.n, key, "");
      assert Lists(c, u.value, key) == Lists(c0, u.value, key);
    }
  }

  lemma BooleanSplits(c: Config, v: Value, key: string)
    requires !v.Undefined?
    ensures var c0 := c.(custom := []);
            && BooleanValidate(c, v, key) == Then(BooleanValidate(c0, v, key), c.custom, key, RejectUndefined)
            && OptionalBooleanValidate(c, v, key) == Then(OptionalBooleanValidate(c0, v, key), c.custom, key, ReportPlain)
  {
  }

  lemma ArraySplits(s: Schema, v: Value, key: string)
    requires s.ArraySchema? && !v.Undefined?
    ensures forall p :: ArrayBody(s, v, key, p) == Then(ArrayBody(ClearCustom(s), v, key, p), s.cfg.custom, key, p)
  {
    var s0 := ClearCustom(s);
    if v.Arr? {
      ElemsDependOnItem(s, s0, v.items);
      assert Bounds(s.cfg, |v.items|, key, " elements") == Bounds(s0.cfg, |v.items|, key, " elements");
    }
  }

  lemma ObjectSplits(s: Schema, v: Value, key: string)
    requires s.ObjectSchema? && !v.Undefined?
    ensures ObjectValidate(s, v, key) == Then(ObjectValidate(ClearCustom(s), v, key), s.cfg.custom, key, ReportAtKey)
    ensures OptionalObjectValidate(s, v, key) == Then(OptionalObjectValidate(ClearCustom(s), v, key), s.cfg.custom, key, ReportAtKey)
  {
    var s0 := ClearCustom(s);
    if v.Obj? {
      EntriesDependOnFields(s, s0, v.fields, key, true);
      EntriesDependOnFields(s, s0, v.fields, key, false);
    }
  }

  lemma ThenConcat(r: Result<Value, Err>, a: seq<Transform>, b: seq<Transform>, key: string, p: CustomPolicy)
    ensures Then(r, a + b, key, p) == Then(Then(r, a, key, p), b, key, p)
  {
    if r.Success? {
      FoldConcat(a, b, r.value, key, p);
    }
  }

  /** `custom(f)` adds one step after everything the validator did before
      (appending classes) or after its built-in checks alone (classes that
      keep a single transform). */
  lemma CustomRunsLast(s: Schema, f: Transform, v: Value, key: string)
    requires !(!s.cfg.required && v.Undefined?)
    ensures Validate(Custom(s, f), v, key) ==
              Then(if AppendsCustom(s) then Validate(s, v, key) else Validate(ClearCustom(s), v, key),
                   [f], key, PolicyOf(s))
  {
    var s1 := Custom(s, f);
    WithConfigTwice(s, s.cfg.(custom := s1.cfg.custom), s1.cfg.(custom := []));
    assert ClearCustom(s1) == ClearCustom(s);
    assert PolicyOf(s1) == PolicyOf(s);
    ValidateSplitsAtCustom(s1, v, key);
    if AppendsCustom(s) {
      assert s1.cfg.custom == s.cfg.custom + [f];
      ThenConcat(Validate(ClearCustom(s), v, key), s.cfg.custom, [f], key, PolicyOf(s));
      ValidateSplitsAtCustom(s, v, key);
    } else {
      assert s1.cfg.custom == [f];
    }
  }

  // ---- the fluent calls ----

  /** `min(0)` and `max(0)` behave as if no bound had been set, because the
      source tests the bound for truthiness. */
  lemma {:induction false} ZeroBoundIsNoBound(s: Schema, v: Value, key: string)
    requires HasBounds(s)
    ensures Validate(Min(s, 0), v, key) == Validate(WithConfig(s, s.cfg.(min := None)), v, key)
    ensures Validate(Max(s, 0), v, key) == Validate(WithConfig(s, s.cfg.(max := None)), v, key)
  {
    var a, b := Min(s, 0), WithConfig(s, s.cfg.(min := None));
    var a', b' := Max(s, 0), WithConfig(s, s.cfg.(max := None));
    forall n: int, unit: string
      ensures Bounds(a.cfg, n, key, unit) == Bounds(b.cfg, n, key, unit)
      ensures Bounds(a'.cfg, n, key, unit) == Bounds(b'.cfg, n, key, unit)
    {
    }
    if s.ArraySchema? && v.Arr? {
      ElemsDependOnItem(a, b, v.items);
      ElemsDependOnItem(a', b', v.items);
    }
  }

  /** `optional()` then `required()` gives back the same validator, and
      the other way round. */
  lemma OptionalRequiredRoundTrip(s: Schema)
    requires !s.ObjectSchema?
    ensures s.cfg.required ==> AsRequired(AsOptional(s)) == s
    ensures !s.cfg.required ==> AsOptional(AsRequired(s)) == s
  {
    if s.cfg.required {
      WithConfigTwice(s, s.cfg.(required := false), s.cfg);
    } else {
      WithConfigTwice(s, s.cfg.(required := true), s.cfg);
    }
    WithConfigSame(s);
  }

  /** A later `min`/`max` overrides an earlier one, and setting the two
      bounds in either order gives the same validator. */
  lemma BoundSetters(s: Schema, a: int, b: int)
    requires HasBounds(s)
    ensures Min(Min(s, a), b) == Min(s, b)
    ensures Max(Max(s, a), b) == Max(s, b)
    ensures Min(Max(s, b), a) == Max(Min(s, a), b)
  {
  }

  /** A later `whitelist`/`blacklist` overrides an earlier one, and the two
      commute. */
  lemma ListSetters(s: Schema, xs: seq<Value>, ys: seq<Value>)
    requires HasLists(s)
    ensures Whitelist(Whitelist(s, xs), ys) == Whitelist(s, ys)
    ensures Blacklist(Blacklist(s, xs), ys) == Blacklist(s, ys)
    ensures Whitelist(Blacklist(s, ys), xs) == Blacklist(Whitelist(s, xs), ys)
  {
  }

  /** The optional string validator never reads the allow/deny lists. */
  lemma OptionalStringIgnoresLists(c: Config, v: Value, key: string)
    requires !c.required
    ensures Validate(StringSchema(c), v, key) == Validate(StringSchema(c.(valid := None, invalid := None)), v, key)
  {
    var c' := c.(valid := None, invalid := None);
    if v.Str? {
      assert Bounds(c, |v.s|, key, "") == Bounds(c', |v.s|, key, "");
    }
  }

  /** The boolean validators read neither bounds nor lists. */
  lemma BooleanIgnoresBoundsAndLists(c: Config, v: Value, key: string)
    ensures Validate(BooleanSchema(c), v, key) ==
              Validate(BooleanSchema(c.(min := None, max := None, valid := None, invalid := None)), v, key)
  {
  }

  /** A string that parses as a number is treated exactly as that number;
      one that does not is rejected as an invalid number. */
  lemma NumberStringCoercion(c: Config, t: string, key: string)
    ensures Text.ParseNum(t).Some? ==>
              Validate(NumberSchema(c), Str(t), key) == Validate(NumberSchema(c), Num(Text.ParseNum(t).value), key)
    ensures Text.ParseNum(t).None? ==>
              Validate(NumberSchema(c), Str(t), key) == Failure(ValidationError(Details(key, "Invalid number")))
  {
  }

  /** In particular the decimal text of every integer is accepted as that
      integer. */
  lemma NumberTextAccepted(c: Config, n: int, key: string)
    ensures Validate(NumberSchema(c), Str(Text.IntToString(n)), key) == Validate(NumberSchema(c), Num(n), key)
  {
    Text.ParseIntToString(n);
    NumberStringCoercion(c, Text.IntToString(n), key);
  }

  /** "true" and "false" are treated exactly as the booleans; every other
      string is rejected. */
  lemma BooleanStringCoercion(c: Config, t: string, key: string)
    ensures Validate(BooleanSchema(c), Str("true"), key) == Validate(BooleanSchema(c), Bool(true), key)
    ensures Validate(BooleanSchema(c), Str("false"), key) == Validate(BooleanSchema(c), Bool(false), key)
    ensures t != "true" && t != "false" ==>
              Validate(BooleanSchema(c), Str(t), key) == Failure(ValidationError(Details(key, NotBoolean)))
  {
  }
}
