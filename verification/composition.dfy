/** How the container validators combine the results of their children:
    an array or object is accepted exactly when every element or entry is,
    the output is assembled from the children's outputs in input order, and
    otherwise the first failing child's error is the container's error. */
module Composition {
  import opened Results
  import opened Values
  import opened Errors
  import opened Validators
  import opened Pipeline
  import opened Scalars
  import opened Validation

  // ---- arrays ----

  lemma {:induction false} ElemsAllSucceed(s: Schema, xs: seq<Value>, ys: seq<Value>)
    requires s.ArraySchema? && |ys| == |xs|
    requires forall i :: 0 <= i < |xs| ==> Validate(s.item, xs[i], "") == Success(ys[i])
    ensures ValidateElems(s, xs) == Success(ys)
    decreases |xs|
  {
    if |xs| > 0 {
      ElemsAllSucceed(s, xs[1..], ys[1..]);
      assert ys == [ys[0]] + ys[1..];
    }
  }

  lemma {:induction false} ElemsFailAt(s: Schema, xs: seq<Value>, i: nat)
    requires s.ArraySchema? && i < |xs|
    requires forall j :: 0 <= j < i ==> Validate(s.item, xs[j], "").Success?
    requires Validate(s.item, xs[i], "").Failure?
    ensures ValidateElems(s, xs) == Failure(Validate(s.item, xs[i], "").error)
    decreases i
  {
    if i > 0 {
      ElemsFailAt(s, xs[1..], i - 1);
    }
  }

  /** With no transforms and an element count within bounds, an array is
      accepted exactly when every element is, and the output holds each
      element's output at the same index. */
  lemma ArrayAcceptsExactly(s: Schema, xs: seq<Value>, ys: seq<Value>, key: string)
    requires s.ArraySchema? && s.cfg.custom == [] && WithinBounds(s.cfg, |xs|)
    ensures Validate(s, Arr(xs), key) == Success(Arr(ys)) <==>
              |ys| == |xs| && forall i :: 0 <= i < |xs| ==> Validate(s.item, xs[i], "") == Success(ys[i])
  {
    if |ys| == |xs| && forall i :: 0 <= i < |xs| ==> Validate(s.item, xs[i], "") == Success(ys[i]) {
      ElemsAllSucceed(s, xs, ys);
    }
  }

  /** The first element that fails decides the array's error, unchanged
      (so it carries the element validator's path, which is empty). */
  lemma ArrayFailsAtFirstBadElement(s: Schema, xs: seq<Value>, i: nat, key: string)
    requires s.ArraySchema? && WithinBounds(s.cfg, |xs|) && i < |xs|
    requires forall j :: 0 <= j < i ==> Validate(s.item, xs[j], "").Success?
    requires Validate(s.item, xs[i], "").Failure?
    ensures Validate(s, Arr(xs), key) == Failure(Validate(s.item, xs[i], "").error)
  {
    ElemsFailAt(s, xs, i);
  }

  /** The element count is checked before any element: an array of the
      wrong size fails at its own key whatever its elements are. */
  lemma ArrayCountBeforeElements(s: Schema, xs: seq<Value>, key: string)
    requires s.ArraySchema? && !WithinBounds(s.cfg, |xs|)
    ensures Validate(s, Arr(xs), key).Failure?
    ensures Validate(s, Arr(xs), key).error == Bounds(s.cfg, |xs|, key, " elements").error
  {
  }

  // ---- objects ----

  lemma {:induction false} EntriesAllSucceed(s: Schema, es: seq<(string, Value)>, outs: seq<(string, Value)>, key: string, passKey: bool)
    requires s.ObjectSchema? && |outs| == |es|
    requires forall i :: 0 <= i < |es| ==> ValidateEntry(s, es[i], key, passKey) == Success(outs[i])
    ensures ValidateEntries(s, es, key, passKey) == Success(outs)
    decreases |es|
  {
    if |es| > 0 {
      EntriesAllSucceed(s, es[1..], outs[1..], key, passKey);
      assert outs == [outs[0]] + outs[1..];
    }
  }

  lemma {:induction false} EntriesFailAt(s: Schema, es: seq<(string, Value)>, i: nat, key: string, passKey: bool)
    requires s.ObjectSchema? && i < |es|
    requires forall j :: 0 <= j < i ==> ValidateEntry(s, es[j], key, passKey).Success?
    requires ValidateEntry(s, es[i], key, passKey).Failure?
    ensures ValidateEntries(s, es, key, passKey) == Failure(ValidateEntry(s, es[i], key, passKey).error)
    decreases i
  {
    if i > 0 {
      EntriesFailAt(s, es[1..], i - 1, key, passKey);
    }
  }

  /** A declared key is handled by its field's validator, which is given
      the key itself as path by the required object and the empty path by
      the optional one. */
  lemma DeclaredEntry(s: Schema, entry: (string, Value), key: string, passKey: bool)
    requires s.ObjectSchema? && IndexOf(s.fields, entry.0).Some?
    ensures var child := Validate(s.fields[IndexOf(s.fields, entry.0).value].1, entry.1, if passKey then entry.0 else "");
            && (ValidateEntry(s, entry, key, passKey).Success? <==> child.Success?)
            && (child.Success? ==> ValidateEntry(s, entry, key, passKey).value == (entry.0, child.value))
            && (child.Failure? ==> ValidateEntry(s, entry, key, passKey).error == child.error)
  {
  }

  /** With no transforms and no missing required field, an object is
      accepted exactly when every entry is; the output keeps the input's
      keys in the input's order. */
  lemma ObjectAcceptsExactly(s: Schema, es: seq<(string, Value)>, outs: seq<(string, Value)>, key: string)
    requires s.ObjectSchema? && s.cfg.custom == []
    requires !s.cfg.required || FirstMissing(s.fields, es).None?
    ensures Validate(s, Obj(es), key) == Success(Obj(outs)) <==>
              |outs| == |es| && forall i :: 0 <= i < |es| ==> ValidateEntry(s, es[i], key, s.cfg.required) == Success(outs[i])
    ensures Validate(s, Obj(es), key) == Success(Obj(outs)) ==> Keys(outs) == Keys(es)
  {
    if |outs| == |es| && forall i :: 0 <= i < |es| ==> ValidateEntry(s, es[i], key, s.cfg.required) == Success(outs[i]) {
      EntriesAllSucceed(s, es, outs, key, s.cfg.required);
    }
  }

  /** The first entry that fails decides the object's error, unchanged. */
  lemma ObjectFailsAtFirstBadEntry(s: Schema, es: seq<(string, Value)>, i: nat, key: string)
    requires s.ObjectSchema? && i < |es|
    requires !s.cfg.required || FirstMissing(s.fields, es).None?
    requires forall j :: 0 <= j < i ==> ValidateEntry(s, es[j], key, s.cfg.required).Success?
    requires ValidateEntry(s, es[i], key, s.cfg.required).Failure?
    ensures Validate(s, Obj(es), key) == Failure(ValidateEntry(s, es[i], key, s.cfg.required).error)
  {
    EntriesFailAt(s, es, i, key, s.cfg.required);
  }

  /** Unless `unknown(true)` was set, the first undeclared key (after the
      entries before it passed) fails at the object's own key. */
  lemma UnknownKeyRejected(s: Schema, es: seq<(string, Value)>, i: nat, key: string)
    requires s.ObjectSchema? && i < |es| && !AllowsUnknown(s.cfg)
    requires !s.cfg.required || FirstMissing(s.fields, es).None?
    requires forall j :: 0 <= j < i ==> ValidateEntry(s, es[j], key, s.cfg.required).Success?
    requires IndexOf(s.fields, es[i].0).None?
    ensures Validate(s, Obj(es), key) == Failure(ValidationError(Details(key, "Unknown key not allowed " + es[i].0)))
  {
    EntriesFailAt(s, es, i, key, s.cfg.required);
  }

  /** With `unknown(true)` and no declared fields, every object passes
      through unchanged. */
  lemma UnknownKeysPassThrough(s: Schema, es: seq<(string, Value)>, key: string)
    requires s.ObjectSchema? && s.fields == [] && AllowsUnknown(s.cfg) && s.cfg.custom == []
    ensures Validate(s, Obj(es), key) == Success(Obj(es))
  {
    forall i | 0 <= i < |es|
      ensures ValidateEntry(s, es[i], key, s.cfg.required) == Success(es[i])
    {
      assert IndexOf(s.fields, es[i].0).None?;
    }
    EntriesAllSucceed(s, es, es, key, s.cfg.required);
  }

  /** A required object reports the first missing required field, in
      declaration order, before looking at any entry. */
  lemma MissingFieldFirst(s: Schema, es: seq<(string, Value)>, key: string, i: nat)
    requires s.ObjectSchema? && s.cfg.required && i < |s.fields|
    requires s.fields[i].1.cfg.required && s.fields[i].0 !in Keys(es)
    requires forall j :: 0 <= j < i ==> !MissingField(s.fields[j], es)
    ensures Validate(s, Obj(es), key) == Failure(ValidationError(Details(s.fields[i].0, "Missing required keys")))
  {
    assert MissingField(s.fields[i], es);
  }
}
