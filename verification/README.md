# type-standard-validator in Dafny

A model of `tsv`, a small TypeScript library that validates and coerces
untyped JavaScript values against a tree of validators built with a fluent
API: `tsv.string()`, `tsv.number()`, `tsv.boolean()`, `tsv.array(items)` and
`tsv.object(fields)`, refined by `min`, `max`, `whitelist`, `blacklist`,
`email`, `unknown` and `custom`, and switched between their required and
optional classes by `optional()` and `required()`. Calling `validate(value,
key)` either returns the (possibly coerced and transformed) value or fails
with a `ValidationError` whose details hold the key and the reason.

The model is made of pure functions over immutable data:

- `Values.Value` is the JavaScript value domain the validators inspect
  (`undefined`, `null`, strings, integers, booleans, arrays and objects as
  ordered entry lists). `Values.TypeOf` is `typeof`.
- `Validators.Schema` is a validator: its class (string, number, boolean,
  array, object), its configuration (`Validators.Config`: required flag,
  `unknown`, bounds, allow/deny lists, transforms) and its children. The
  required and optional classes share a constructor and differ in
  `cfg.required`.
- `Errors` holds `ValidationError` and its `toJSON` form; the error
  thrown for a failing `validate` is a `Results.Failure`.
- `Pipeline` is the loop over the custom transforms that ends every
  `validate`, with its three failure policies (a failure descriptor at the
  key, an `undefined` result rejected, or a plain `Error`).
- `Scalars` is `validate` of the six scalar classes; `Validation` is the
  array and object classes and the dispatcher `Validate`.
- `Builders` is the fluent configuration calls, each returning a copy with
  one configuration field changed; `Factories` is `tsv.ts`.
- `Email` is the address check of `email()`, given both as the regular
  expression read as a language and as a deterministic split; they are
  proved equal.
- `Definitions` is `_getDefinitions()`, with an inverse that rebuilds the
  validator from it.
- `Laws`, `Composition` and `Examples` state how whole validator trees
  behave and what the test suite expects.
- `Findings` models three optional classes as they are written, where they
  throw a `TypeError` on ordinary inputs.

## Model

| member | source | states |
|---|---|---|
| Errors.NewValidationError | src/ValidationError.ts:8-15 | the details carry the given path and reason verbatim, the message is always "Invalid Data" and the name "ValidationError" |
| Errors.ToJSON | src/ValidationError.ts:16-19 | the JSON form has exactly the keys `message` and `details`, in that order, and the message is "Invalid Data" |
| Errors.ToJSONRoundTrip | src/ValidationError.ts:16-19 | `toJSON` loses nothing: the path and reason can be read back from it |
| Errors.ToJSONExactly | src/ValidationError.ts:16-19 | `toJSON` adds nothing: the only JSON object that reads back as given details is the one `toJSON` produces |
| Validators.ValidatorError | src/Validator.ts:2-4 | the failure descriptor a transform returns is an object whose only key is `message`, and the pipeline recognises it as a failure with that message |
| Values.TypeOf | src/StringValidator.ts:62-67 | `typeof` names each kind of value; `null`, arrays and objects all answer "object" |
| Values.FailureMessage | src/StringValidator.ts:95 | a transform result counts as a failure exactly when it is an object with a `message` key, and the message is that key's value |
| Values.IndexOf | src/ObjectValidator.ts:52-53 | finds the first declared field with the key, and finds none exactly when the key is not declared |
| Pipeline.Step | src/BooleanValidator.ts:37-48 | one transform's result is kept unless it is a failure descriptor, or `undefined` under the boolean/array policy; a failure becomes a `ValidationError` at the key, a plain `Error` for the optional boolean, or "Invalid custom function" |
| Pipeline.Fold | src/StringValidator.ts:92-101 | with no transforms the value is returned unchanged; every failure is one the class's policy allows; a successful result is never a failure descriptor, and under the boolean/array policy never `undefined` |
| Pipeline.RunCustom | src/NumberValidator.ts:78-87 | the loop with a running value computes exactly the fold of the transforms |
| Pipeline.FoldConcat | src/OptionalBooleanValidator.ts:37-46 | running a list of transforms split in two is running the first part, then the second on its output |
| Pipeline.FoldAppend | src/StringValidator.ts:108-113 | a transform appended to the list runs last, on the output of all the earlier ones |
| Pipeline.FoldEarlyExit | src/StringValidator.ts:93-96 | once a prefix of the transforms has failed, the later ones never change the outcome |
| Pipeline.FoldSingle | src/OptionalStringValidator.ts:44-51 | a single stored transform runs exactly once and its result is judged by the policy |
| Scalars.Bounds | src/StringValidator.ts:68-79 | passes exactly when the size is within every enforced bound, both inclusive, a bound of 0 being unenforced; the minimum is reported before the maximum |
| Scalars.Lists | src/StringValidator.ts:80-91 | passes exactly when the value is on the allow-list (if any) and off the deny-list (if any); the allow-list is reported first |
| Scalars.StringValidate | src/StringValidator.ts:58-102 | absent fails "Required", a non-string fails the type check, and a string succeeds exactly when bounds, lists and transforms all pass; a bound failure (" characters" messages) is reported before a list failure; every failure is at the key |
| Scalars.OptionalStringValidate | src/OptionalStringValidator.ts:30-53 | absent is returned as is; a string succeeds exactly when bounds and transforms pass, the lists being ignored; a bound failure carries the unit-less "Minimum of N required" / "Maximum of N required" message |
| Scalars.CoerceNumber | src/NumberValidator.ts:48-53 | a parseable string becomes its number, an unparseable one fails "Invalid number", anything else is passed on unchanged |
| Scalars.NumberChecks | src/NumberValidator.ts:48-87 | a number succeeds exactly when bounds, lists and transforms pass, and a bound failure is reported before a list failure; booleans, `null`, arrays and objects fail the type check; every failure is at the key |
| Scalars.NumberValidate | src/NumberValidator.ts:44-88 | absent fails "Required"; a present value gets the shared coercion, type, bound, list and transform checks; every failure is at the key |
| Scalars.OptionalNumberValidate | src/OptionalNumberValidator.ts:43-87 | absent is returned as is; a present value gets the same checks as in the required class; every failure is at the key |
| Scalars.CoerceBoolean | src/BooleanValidator.ts:25-29 | "true" and "false" become booleans, any other string fails, anything else is passed on |
| Scalars.BooleanValidate | src/BooleanValidator.ts:21-50 | absent fails "Required", a boolean goes through the transforms with `undefined` results rejected, other kinds fail the type check |
| Scalars.OptionalBooleanValidate | src/OptionalBooleanValidator.ts:22-47 | absent is returned as is; a boolean goes through the transforms, whose failures are plain errors |
| Validation.Validate | src/Validator.ts:21-30 | for every class, a required validator fails "Required" on an absent value (at the empty path for objects) and an optional one returns it |
| Validation.ArrayValidate | src/ArrayValidator.ts:32-72 | absent fails "Required", otherwise the array body with `undefined` transform results rejected |
| Validation.OptionalArrayValidate | src/OptionalArrayValidator.ts:32-66 | absent is returned as is, otherwise the array body with failures reported at the key |
| Validation.ArrayBody | src/ArrayValidator.ts:36-71 | a non-array fails the type check, an out-of-bounds count fails at the key, and success means every element passed |
| Validation.ValidateElems | src/ArrayValidator.ts:55-58 | on success the output has one element per input element, each the item validator's result for it |
| Validation.FirstMissing | src/ObjectValidator.ts:43-49 | finds the first declared required field absent from the input, in declaration order, and none exactly when no such field exists |
| Validation.ObjectValidate | src/ObjectValidator.ts:33-68 | absent fails "Required" at the empty path, other non-objects fail the type check, `null` throws, a missing required key fails at that key, otherwise the entries and transforms run |
| Validation.OptionalObjectValidate | src/OptionalObjectValidator.ts:33-58 | as the required form without the missing-key check, and fields are validated with no key |
| Validation.ObjectBody | src/ObjectValidator.ts:51-67 | success means every entry passed, and with no transforms the result is an object with the input's keys; a failure is either the error of an entry whose predecessors all passed, or a transform's failure at the key |
| Validation.ValidateEntry | src/ObjectValidator.ts:52-56 | the key is kept; an undeclared key is passed through when `unknown` is true and rejected at the parent's key otherwise |
| Validation.ValidateEntries | src/ObjectValidator.ts:51-57 | on success the keys are the input's keys in order and each entry is its field's result; a failure is the error of an entry whose predecessors all passed |
| Email.EmailTransform | src/StringValidator.ts:31-38 | an address the regular expression matches comes back lower-cased; anything else yields the "Invalid email address" descriptor |
| Email.MatchesEmailIff | src/StringValidator.ts:32 | the split-based check accepts exactly the strings the regular expression matches |
| Text.ParseNum | src/NumberValidator.ts:48-50 | a string is read as a number exactly when it is an optionally signed run of decimal digits |
| Text.ParseIntToString | src/NumberValidator.ts:48-53 | the decimal text of every integer reads back as that integer |
| Text.Lower | src/StringValidator.ts:37 | the length is kept, upper-case ASCII letters move down by 32 and every other character is unchanged |
| Text.LowerIdempotent | src/StringValidator.ts:37 | lower-casing twice is lower-casing once |
| Builders.FreshConfig | src/ObjectValidator.ts:18-23 | a new validator has no bounds, no lists and no transforms, and `unknown` is false for objects only |
| Builders.Min | src/StringValidator.ts:19-22 | sets the lower bound and changes nothing else |
| Builders.Max | src/NumberValidator.ts:23-26 | sets the upper bound and changes nothing else |
| Builders.Whitelist | src/StringValidator.ts:44-47 | sets the allow-list and changes nothing else |
| Builders.Blacklist | src/NumberValidator.ts:37-40 | sets the deny-list and changes nothing else |
| Builders.Custom | src/StringValidator.ts:108-113 | the appending classes add the transform at the end, the others keep it as the only one; nothing else changes |
| Builders.WithEmail | src/StringValidator.ts:27-40 | appends the e-mail transform and changes nothing else |
| Builders.AsOptional | src/StringValidator.ts:55-57 | the same configuration and children with `required` cleared |
| Builders.AsRequired | src/OptionalStringValidator.ts:27-29 | the same configuration and children with `required` set |
| Builders.Unknown | src/ObjectValidator.ts:27-32 | sets `unknown` and keeps the handle's class |
| Builders.NewOptionalObject | src/OptionalObjectValidator.ts:10-26 | an optional object validator over the given fields with a fresh configuration |
| Factories.NewNumber | src/tsv.ts:10-12 | a required number validator with a fresh configuration |
| Factories.NewString | src/tsv.ts:13-15 | a required string validator with a fresh configuration |
| Factories.NewBoolean | src/tsv.ts:16-18 | a required boolean validator with a fresh configuration |
| Factories.NewArray | src/tsv.ts:19-21 | a required array validator over the given item validator |
| Factories.NewObject | src/tsv.ts:22-28 | a required object validator over the given fields, undeclared keys rejected |
| Factories.NewStringBehaviour | src/StringValidator.ts:58-67 | `string()` accepts exactly the strings and returns them unchanged |
| Factories.NewNumberBehaviour | src/NumberValidator.ts:44-59 | `number()` accepts exactly the numbers and the strings that parse as numbers |
| Factories.NewBooleanBehaviour | src/BooleanValidator.ts:21-35 | `boolean()` accepts exactly the booleans and the strings "true" and "false" |
| Factories.NewEmptyObjectBehaviour | src/ObjectValidator.ts:51-57 | `object({})` accepts only the empty object, and with `unknown(true)` every object unchanged |
| Factories.EmailValidation | src/StringValidator.ts:27-40 | `string().email()` returns a matching address lower-cased and fails every other string with "Invalid email address" at the key |
| Definitions.Define | src/ObjectValidator.ts:75-83 | `_getDefinitions()` records the class name and the configuration, and one child definition per field, in order |
| Definitions.RebuildDefine | src/ArrayValidator.ts:80-85 | the definitions lose nothing: the whole validator tree can be rebuilt from them |
| Laws.ValidateSplitsAtCustom | src/NumberValidator.ts:44-88 | every `validate` is its built-in checks followed by its transforms |
| Laws.CustomRunsLast | src/OptionalNumberValidator.ts:93-98 | `custom(f)` runs `f` after everything the validator did before (appending classes) or after the built-in checks alone (replacing classes) |
| Laws.ThenConcat | src/ArrayValidator.ts:59-71 | feeding a result through two lists of transforms is feeding it through their concatenation |
| Laws.ZeroBoundIsNoBound | src/NumberValidator.ts:60-65 | `min(0)` and `max(0)` validate exactly as if no bound were set |
| Laws.OptionalRequiredRoundTrip | src/NumberValidator.ts:41-43 | `optional()` and `required()` undo each other |
| Laws.BoundSetters | src/ArrayValidator.ts:21-28 | a later bound overrides an earlier one, and `min` and `max` commute |
| Laws.ListSetters | src/NumberValidator.ts:27-40 | a later list overrides an earlier one, and `whitelist` and `blacklist` commute |
| Laws.OptionalStringIgnoresLists | src/OptionalStringValidator.ts:30-53 | the optional string validator behaves the same whatever lists are configured |
| Laws.BooleanIgnoresBoundsAndLists | src/BooleanValidator.ts:21-50 | the boolean validators behave the same whatever bounds and lists are configured |
| Laws.NumberStringCoercion | src/NumberValidator.ts:48-59 | a parseable string is validated exactly as its number; an unparseable one fails "Invalid number" |
| Laws.NumberTextAccepted | src/NumberValidator.ts:48-53 | the decimal text of every integer is validated exactly as that integer |
| Laws.BooleanStringCoercion | src/BooleanValidator.ts:25-35 | "true" and "false" are validated exactly as the booleans, every other string fails |
| Composition.ElemsAllSucceed | src/ArrayValidator.ts:55-58 | when every element passes the item validator, the elements succeed with those results |
| Composition.ElemsFailAt | src/ArrayValidator.ts:55-58 | when elements before an index pass and the one at it fails, that failure is returned |
| Composition.ArrayAcceptsExactly | src/ArrayValidator.ts:42-58 | an array passes the built-in checks exactly when its count is within bounds and every element passes |
| Composition.ArrayFailsAtFirstBadElement | src/ArrayValidator.ts:55-57 | the error of an array is the error of its first failing element |
| Composition.ArrayCountBeforeElements | src/ArrayValidator.ts:42-58 | a count outside the bounds is reported before any element is examined |
| Composition.EntriesAllSucceed | src/ObjectValidator.ts:51-57 | when every entry passes, the entries succeed with those results |
| Composition.EntriesFailAt | src/ObjectValidator.ts:51-57 | when entries before an index pass and the one at it fails, that failure is returned |
| Composition.DeclaredEntry | src/ObjectValidator.ts:52-53 | a declared key is validated by its own field's validator |
| Composition.ObjectAcceptsExactly | src/ObjectValidator.ts:43-58 | an object passes the built-in checks exactly when no required key is missing and every entry passes, and the result keeps the input's keys |
| Composition.ObjectFailsAtFirstBadEntry | src/ObjectValidator.ts:51-57 | the error of an object is the error of its first failing entry |
| Composition.UnknownKeyRejected | src/ObjectValidator.ts:54-56 | without `unknown(true)` an undeclared key fails "Unknown key not allowed" at the parent's key |
| Composition.UnknownKeysPassThrough | src/ObjectValidator.ts:51-57 | with `unknown(true)` and no fields, every object comes back unchanged |
| Composition.MissingFieldFirst | src/ObjectValidator.ts:43-49 | a missing required key is reported before any entry is validated |
| Examples.ParseExamples | test/array.test.ts:17-24 | "2" reads as 2, "-15" as -15, and "test" not at all |
| Examples.NumberArrayExamples | test/array.test.ts:17-24 | `array(number())` maps `[1, "2"]` to `[1, 2]` and rejects `[1, "test"]` |
| Examples.BooleanArrayExample | test/array.test.ts:69-72 | `array(boolean())` maps `[true, "false"]` to `[true, false]` |
| Examples.RangeExamples | test/range.test.ts:3-25 | `number().min(1).max(10)` accepts 1 and 10 and rejects 0 and 11 |
| Examples.StringRangeExample | test/range.test.ts:41-44 | `string().min(1).max(10)` rejects the empty string |
| Examples.WhitelistExample | test/enum.test.ts:3-17 | `whitelist(["a", "b"])` accepts "a" and rejects "d" naming the allowed values |
| Examples.ChainedCustomExample | test/custom.test.ts:26-29 | two string transforms apply in order: "test" becomes "test-test-" |
| Examples.NumberChainExample | test/custom.test.ts:53-61 | two number transforms apply in order: 1 becomes 3 and 5 becomes 7, and so does the text "5" |
| Examples.StrictObjectAcceptsExample | test/object.test.ts:3-11 | `object({ foo: string(), bar: number() })` returns `{ foo: "test", bar: 1 }` unchanged |
| Examples.StrictObjectExamples | test/object.test.ts:12-19 | the same validator fails "Missing required keys" at "bar" when `bar` is absent and "Invalid number" at "bar" when it is "test" |
| Examples.NestedUnknownExample | test/object.test.ts:134-165 | `unknown(true)` on an inner object does not let an undeclared outer key through |
| Examples.NullObjectExample | test/simple.test.ts:163-166 | `null` given to an object validator throws |
| Examples.EmailAcceptedExample | test/custom.test.ts:14-17 | "example@gmail.com" is accepted unchanged |
| Examples.EmailWithoutDotExample | test/custom.test.ts:6-9 | "example@test" is rejected |
| Examples.EmailWithoutAtExample | test/custom.test.ts:10-13 | "examplegmail.com" is rejected |
| Findings.CallSlot | src/OptionalStringValidator.ts:44-51 | calling the stored transform: nothing stored passes, a single one runs, an array throws |
| Findings.IterateSlot | src/OptionalBooleanValidator.ts:37-46 | iterating the stored transforms: an array runs them all, anything else throws |
| Findings.OptionalStringValidateAsWritten | src/OptionalStringValidator.ts:30-53 | the optional string class as written: the corrected checks, then the stored transform called as a function |
| Findings.OptionalNumberValidateAsWritten | src/OptionalNumberValidator.ts:43-87 | the optional number class as written: the corrected checks, then the stored transform called as a function |
| Findings.OptionalBooleanValidateAsWritten | src/OptionalBooleanValidator.ts:22-47 | the optional boolean class as written: the corrected checks, then the stored transforms iterated |
| Findings.OptionalStringThrows | src/StringValidator.ts:15 | `string().optional()` throws on every string, because it calls the empty array it inherits |
| Findings.OptionalNumberThrows | src/NumberValidator.ts:15 | `number().optional()` and `number().custom(f).optional()` throw on every number, because they call the array they inherit |
| Findings.OptionalBooleanThrows | src/BooleanValidator.ts:7-17 | `boolean().optional()` throws on every boolean, because it iterates the missing list it inherits |
| Findings.OptionalStringIntended | src/OptionalStringValidator.ts:30-53 | in the corrected model `string().optional()` returns every string unchanged and runs any stored transforms in order |
| Findings.OptionalNumberIntended | test/custom.test.ts:63-71 | in the corrected model `number().optional()` returns every number unchanged and `number().custom(f).optional()` runs `f` once |
| Findings.OptionalBooleanIntended | src/OptionalBooleanValidator.ts:22-47 | in the corrected model `boolean().optional()` returns every boolean unchanged and coerces "true" |

## Left out

- Object identity and aliasing: a validator and the handle returned by
  `optional()`/`required()` share one configuration object in the source,
  so a later call on either changes both. The model gives each handle its
  own copy. The two agree only when no handle is used after a conversion
  has been made from it: in the source `s.optional()` also clears the
  `required` flag of `s` itself, so `s` used afterwards (for instance as
  an object field) behaves as optional, where the model keeps it
  required.
- In-place updates: the array and object validators write the validated
  children back into the input value; the model returns a new value and
  does not model the mutation of the caller's value.
- The custom-transform field holds either a function, an array or nothing,
  depending on the class and the call history, and a class that meets the
  other representation after a conversion throws a `TypeError`. The model
  always holds a sequence and does not throw on any of these paths:
  `string().optional()` and `number().optional()` (with or without
  earlier `custom` calls) call the inherited array, see "## Findings";
  `boolean().optional()` iterates the missing list, see "## Findings";
  `boolean().custom(f).optional()` iterates a function;
  `boolean().optional().custom(g)` pushes onto the missing list while
  configuring; `string().optional().custom(f).required()` and
  `number().optional().custom(f).required()` iterate a function. Only
  the first three are modelled as written (`Findings`); the model gives
  all of them the behaviour of a transform list.
- Text.ParseNum: reads only optionally signed decimal integer literals,
  where `Number()` also accepts fractions, exponents, hexadecimal,
  surrounding white space, the empty string (as 0) and "Infinity";
  numbers are unbounded integers, not IEEE doubles, so `NaN` and
  fractional bounds are out of scope.
- Scalars.CoerceNumber: inherits the narrower reading of `Text.ParseNum`.
- Text.Lower: lower-cases ASCII letters only; `toLowerCase` also maps the
  rest of Unicode.
- Email.EmailTransform: `\w` is ASCII as in JavaScript regular expressions
  without the `u` flag; on a non-string value the source throws a
  `TypeError` from `match`, which the model treats as a non-matching
  value.
- Pipeline.Step: a failure descriptor whose message is not a string is
  rendered to text in the details, where the source stores it as it is.
- String lengths are counted in characters, not UTF-16 code units.
- The `pattern` field of the validator interface is declared but never
  read by any class.
- Key lookup uses own declared keys; the source's `in` also sees keys
  inherited from the object prototype (such as "toString"), and
  `Object.entries` lists integer-like keys first.
- Duplicate keys in an input object cannot occur in JavaScript; the model
  takes objects as entry lists and does not rule them out.
- The allow/deny lists hold values of any kind, where the source's types
  restrict them to strings or numbers.
- Paths are not composed: a nested failure reports the innermost key only,
  as in the source.
- The chained-transform tests for boolean and array validators
  (test/custom.test.ts:85-93 and 118-128) expect both transforms to run,
  but those classes keep only the last one; the model follows the classes.
- `_getDefinitions()` includes the transforms in the returned configuration,
  as the code does.
- The Jest test harness, module exports and TypeScript typing are not
  modelled.

## Findings

| source | as written | input that shows it | evidently intended | confidence | as-written member | corrected member |
|---|---|---|---|---|---|---|
| src/OptionalStringValidator.ts:44-51 | the stored transforms are called as one function, but `string()` stores an empty array and `optional()` shares it | `tsv.string().optional().validate("a")` throws a `TypeError` | run each stored transform in order; with none, return the string | not executed | Findings.OptionalStringThrows | Findings.OptionalStringIntended |
| src/OptionalNumberValidator.ts:78-86 | the stored transforms are called as one function, but `number()` stores an empty array, `custom()` pushes onto it, and `optional()` shares it | `tsv.number().optional().validate(1)` and `tsv.number().custom(v => v + v).optional().validate(1)` throw a `TypeError` | run each stored transform in order; with none, return the number | not executed | Findings.OptionalNumberThrows | Findings.OptionalNumberIntended |
| src/OptionalBooleanValidator.ts:37-46 | the stored transforms are iterated, but `boolean()` stores none and `optional()` shares that | `tsv.boolean().optional().validate(true)` throws a `TypeError` | with no transforms, return the boolean | not executed | Findings.OptionalBooleanThrows | Findings.OptionalBooleanIntended |
