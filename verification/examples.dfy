/** Concrete facts the repository's test suite checks, proved of the
    model. */
module Examples {
  import opened Results
  import opened Values
  import opened Errors
  import opened Validators
  import opened Scalars
  import opened Validation
  import opened Builders
  import opened Factories
  import opened Laws
  import Composition
  import Pipeline
  import Email
  import Text

  lemma ParseExamples()
    ensures Text.ParseNum("2") == Some(2)
    ensures Text.ParseNum("test") == None
    ensures Text.ParseNum("-15") == Some(-15)
  {
    assert Text.IsIntegerLiteral("2");
    assert "test"[0] == 't' && !Text.IsDigit('t');
    assert !Text.IsIntegerLiteral("test");
    assert "-15"[1..] == "15" && Text.AllDigits("15");
  }

  /** `array(number())` maps `[1, "2"]` to `[1, 2]` and rejects
      `[1, "test"]` with the element's error. */
  lemma NumberArrayExamples()
    ensures Validate(NewArray(NewNumber()), Arr([Num(1), Str("2")]), "") == Success(Arr([Num(1), Num(2)]))
    ensures Validate(NewArray(NewNumber()), Arr([Num(1), Str("test")]), "") ==
              Failure(ValidationError(Details("", "Invalid number")))
  {
    ParseExamples();
    var s := NewArray(NewNumber());
    Composition.ArrayAcceptsExactly(s, [Num(1), Str("2")], [Num(1), Num(2)], "");
    Composition.ArrayFailsAtFirstBadElement(s, [Num(1), Str("test")], 1, "");
  }

  /** `array(boolean())` maps `[true, "false"]` to `[true, false]`. */
  lemma BooleanArrayExample()
    ensures Validate(NewArray(NewBoolean()), Arr([Bool(true), Str("false")]), "") == Success(Arr([Bool(true), Bool(false)]))
  {
    Composition.ArrayAcceptsExactly(NewArray(NewBoolean()), [Bool(true), Str("false")], [Bool(true), Bool(false)], "");
  }

  /** `number().min(1).max(10)` accepts 1 and 10 and rejects 0 and 11. */
  lemma RangeExamples()
    ensures var s := Max(Min(NewNumber(), 1), 10);
            && Validate(s, Num(1), "") == Success(Num(1))
            && Validate(s, Num(10), "") == Success(Num(10))
            && Validate(s, Num(0), "") == Failure(ValidationError(Details("", "Minimum of 1 required")))
            && Validate(s, Num(11), "") == Failure(ValidationError(Details("", "Maximum of 10 required")))
  {
    var s := Max(Min(NewNumber(), 1), 10);
    var c := s.cfg;
    assert s == NumberSchema(c) && c.required && c.min == Some(1) && c.max == Some(10) && c.custom == [];
    assert BelowMinimum(c, "", "") == ValidationError(Details("", "Minimum of 1 required")) by {
      assert Text.IntToString(1) == "1";
    }
    assert AboveMaximum(c, "", "") == ValidationError(Details("", "Maximum of 10 required")) by {
      assert Text.IntToString(10) == "10";
    }
  }

  /** `string().min(1).max(10)` rejects the empty string. */
  lemma StringRangeExample()
    ensures Validate(Max(Min(NewString(), 1), 10), Str(""), "") ==
              Failure(ValidationError(Details("", "Minimum of 1 characters required")))
  {
    var s := Max(Min(NewString(), 1), 10);
    var c := s.cfg;
    assert s == StringSchema(c) && c.required && c.min == Some(1) && c.max == Some(10);
    assert BelowMinimum(c, "", " characters") == ValidationError(Details("", "Minimum of 1 characters required")) by {
      assert Text.IntToString(1) == "1";
    }
  }

  /** `string().whitelist(["a", "b"])` rejects "d" and lists the allowed
      values. */
  lemma WhitelistExample()
    ensures Validate(Whitelist(NewString(), [Str("a"), Str("b")]), Str("a"), "") == Success(Str("a"))
    ensures Validate(Whitelist(NewString(), [Str("a"), Str("b")]), Str("d"), "") ==
              Failure(ValidationError(Details("", "Invalid value, must be one of: a, b")))
  {
    var s := Whitelist(NewString(), [Str("a"), Str("b")]);
    var c := s.cfg;
    assert s == StringSchema(c) && c.required && c.min.None? && c.max.None? && c.invalid.None? && c.custom == [];
    assert c.valid == Some([Str("a"), Str("b")]);
    assert Str("d") != Str("a") && Str("d") != Str("b");
    assert NotAllowed(c, "") == ValidationError(Details("", "Invalid value, must be one of: a, b")) by {
      var parts := seq(2, i requires 0 <= i < 2 => RenderElement([Str("a"), Str("b")][i]));
      assert parts == ["a", "b"];
      assert Text.Join(parts, ", ") == "a, b" by {
        assert parts[..1] == ["a"];
      }
    }
  }

  function AppendDash(v: Value): Value {
    if v.Str? then Str(v.s + "-") else v
  }

  function Twice(v: Value): Value {
    if v.Str? then Str(v.s + v.s) else v
  }

  /** `string().custom(v => v + "-").custom(v => v + v)` maps "test" to
      "test-test-": the transforms run in the order they were added. */
  lemma ChainedCustomExample()
    ensures Validate(Custom(Custom(NewString(), AppendDash), Twice), Str("test"), "") == Success(Str("test-test-"))
  {
    var s := Custom(Custom(NewString(), AppendDash), Twice);
    var c := s.cfg;
    assert s == StringSchema(c) && c.required && c.min.None? && c.max.None? && c.valid.None? && c.invalid.None?;
    assert c.custom == [AppendDash, Twice];
    assert AppendDash(Str("test")) == Str("test-");
    assert Twice(Str("test-")) == Str("test-test-");
    assert FailureMessage(Str("test-")).None?;
    assert FailureMessage(Str("test-test-")).None?;
    Pipeline.FoldSingle(Twice, Str("test-"), "", ReportAtKey);
    assert Pipeline.Fold(c.custom, Str("test"), "", ReportAtKey) == Pipeline.Fold([Twice], Str("test-"), "", ReportAtKey) by {
      assert c.custom[1..] == [Twice];
    }
  }

  function AddOne(v: Value): Value {
    if v.Num? then Num(v.n + 1) else v
  }

  /** `number().custom(v => v + 1).custom(v => v + 1)` maps 1 to 3 and 5
      to 7, and "5" (coerced first) to 7 as well. */
  lemma NumberChainExample()
    ensures Validate(Custom(Custom(NewNumber(), AddOne), AddOne), Num(1), "") == Success(Num(3))
    ensures Validate(Custom(Custom(NewNumber(), AddOne), AddOne), Num(5), "") == Success(Num(7))
    ensures Validate(Custom(Custom(NewNumber(), AddOne), AddOne), Str("5"), "") == Success(Num(7))
  {
    var s := Custom(Custom(NewNumber(), AddOne), AddOne);
    var c := s.cfg;
    assert s == NumberSchema(c) && c.required && c.min.None? && c.max.None? && c.valid.None? && c.invalid.None?;
    assert c.custom == [AddOne, AddOne];
    assert c.custom[1..] == [AddOne];
    assert Text.ParseNum("5") == Some(5) by {
      assert Text.IsIntegerLiteral("5");
    }
    Pipeline.FoldSingle(AddOne, Num(2), "", ReportAtKey);
    Pipeline.FoldSingle(AddOne, Num(6), "", ReportAtKey);
  }

  /** `object({ foo: string(), bar: number() })` accepts the declared shape
      unchanged. */
  lemma StrictObjectAcceptsExample()
    ensures var s := NewObject([("foo", NewString()), ("bar", NewNumber())]);
            var es := [("foo", Str("test")), ("bar", Num(1))];
            Validate(s, Obj(es), "") == Success(Obj(es))
  {
    var s := NewObject([("foo", NewString()), ("bar", NewNumber())]);
    var es := [("foo", Str("test")), ("bar", Num(1))];
    assert Keys(es) == ["foo", "bar"];
    assert FirstMissing(s.fields, es).None?;
    assert IndexOf(s.fields, "foo") == Some(0);
    assert IndexOf(s.fields, "bar") == Some(1);
    assert ValidateEntry(s, es[0], "", true) == Success(es[0]);
    assert ValidateEntry(s, es[1], "", true) == Success(es[1]);
    Composition.ObjectAcceptsExactly(s, es, es, "");
  }

  /** The same validator reports the missing `bar` at its own name, and a
      `bar` that is not a number at its own name too. */
  lemma StrictObjectExamples()
    ensures var s := NewObject([("foo", NewString()), ("bar", NewNumber())]);
            && Validate(s, Obj([("foo", Str("test"))]), "") ==
                 Failure(ValidationError(Details("bar", "Missing required keys")))
            && Validate(s, Obj([("foo", Str("test")), ("bar", Str("test"))]), "") ==
                 Failure(ValidationError(Details("bar", "Invalid number")))
  {
    var s := NewObject([("foo", NewString()), ("bar", NewNumber())]);
    var es := [("foo", Str("test"))];
    assert Keys(es) == ["foo"];
    Composition.MissingFieldFirst(s, es, "", 1);
    var es2 := [("foo", Str("test")), ("bar", Str("test"))];
    assert Keys(es2) == ["foo", "bar"];
    assert FirstMissing(s.fields, es2).None?;
    assert IndexOf(s.fields, "foo") == Some(0);
    assert IndexOf(s.fields, "bar") == Some(1);
    assert Text.ParseNum("test").None?;
    assert Validate(NewNumber(), Str("test"), "bar") == Failure(ValidationError(Details("bar", "Invalid number")));
    assert ValidateEntry(s, es2[1], "", true) == Failure(ValidationError(Details("bar", "Invalid number")));
    Composition.ObjectFailsAtFirstBadEntry(s, es2, 1, "");
  }

  /** `unknown(true)` on an inner object does not let an undeclared key
      through at the outer level. */
  lemma NestedUnknownExample()
    ensures var inner := Unknown(NewObject([("baz", NewNumber()), ("qux", AsOptional(NewNumber()))]), true);
            var s := NewObject([("foo", NewString()), ("bar", inner)]);
            Validate(s, Obj([("foo", Str("test")), ("qux", Num(1)), ("bar", Obj([("baz", Num(1))]))]), "") ==
              Failure(ValidationError(Details("", "Unknown key not allowed qux")))
  {
    var inner := Unknown(NewObject([("baz", NewNumber()), ("qux", AsOptional(NewNumber()))]), true);
    var s := NewObject([("foo", NewString()), ("bar", inner)]);
    var es := [("foo", Str("test")), ("qux", Num(1)), ("bar", Obj([("baz", Num(1))]))];
    assert Keys(es) == ["foo", "qux", "bar"];
    assert FirstMissing(s.fields, es).None?;
    assert IndexOf(s.fields, "foo") == Some(0);
    assert IndexOf(s.fields, "qux").None?;
    assert !AllowsUnknown(s.cfg);
    assert es[1].0 == "qux";
    assert "Unknown key not allowed " + "qux" == "Unknown key not allowed qux";
    Composition.UnknownKeyRejected(s, es, 1, "");
  }

  /** `null` given to an object validator makes the runtime throw. */
  lemma NullObjectExample()
    ensures Validate(NewObject([]), Null, "") == Failure(RuntimeTypeError)
  {
  }

  /** `string().email()` accepts "example@gmail.com" as is. */
  lemma EmailAcceptedExample()
    ensures Validate(WithEmail(NewString()), Str("example@gmail.com"), "") == Success(Str("example@gmail.com"))
  {
    var good := "example@gmail.com";
    assert Email.DottedLabels(["gmail"]) == "gmail." by {
      assert ["gmail"][1..] == [];
    }
    assert good == Email.Address("example", ["gmail"], "com");
    assert Email.IsLocalPart("example");
    assert Email.IsLabel(["gmail"][0]);
    assert Email.IsTopLabel("com");
    assert Email.EmailPattern(good);
    assert forall i :: 0 <= i < |good| ==> !Text.IsUpperAscii(good[i]);
    assert Text.Lower(good) == good;
    Factories.EmailValidation(good, "");
  }

  /** `string().email()` rejects "example@test": the domain has no dot. */
  lemma EmailWithoutDotExample()
    ensures Validate(WithEmail(NewString()), Str("example@test"), "").Failure?
  {
    var s := "example@test";
    assert !Email.DomainMatches("test") by {
      Email.SplitWhole("test", '.');
    }
    assert !Email.MatchesEmail(s) by {
      Email.FirstIndexAt(s, '@', 7);
      assert s[8..] == "test";
    }
    Email.MatchesEmailIff(s);
    Factories.EmailValidation(s, "");
  }

  /** `string().email()` rejects "examplegmail.com": there is no "@". */
  lemma EmailWithoutAtExample()
    ensures Validate(WithEmail(NewString()), Str("examplegmail.com"), "").Failure?
  {
    var s := "examplegmail.com";
    assert forall j :: 0 <= j < |s| ==> s[j] != '@';
    assert !Email.MatchesEmail(s);
    Email.MatchesEmailIff(s);
    Factories.EmailValidation(s, "");
  }
}
