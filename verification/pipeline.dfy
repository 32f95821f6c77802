/** The custom-transform pipeline run at the end of every `validate`:
    transforms run in order, each fed the previous output, and the first
    result that signals failure stops the run. */
module Pipeline {
  import opened Results
  import opened Values
  import opened Errors
  import opened Validators

  const CustomErrorPrefix: string := "Validation Error: custom error "
  const InvalidCustomFunction: string := "Invalid custom function"

  /** Whether `e` is an error the pipeline may raise under policy `p`. */
  predicate PolicyError(p: CustomPolicy, key: string, e: Err) {
    match p
    case ReportAtKey => e.ValidationError? && e.details.path == key
    case RejectUndefined =>
      (e.ValidationError? && e.details.path == key) || e == PlainError(InvalidCustomFunction)
    case ReportPlain =>
      e.PlainError? && |CustomErrorPrefix| <= |e.text| && e.text[..|CustomErrorPrefix|] == CustomErrorPrefix
  }

  /** Examines the result of one transform. */
  function Step(p: CustomPolicy, result: Value, key: string): (r: Result<Value, Err>)
    ensures r.Success? ==> r.value == result
    ensures r.Success? <==> FailureMessage(result).None? && !(p == RejectUndefined && result.Undefined?)
    ensures r.Failure? ==> PolicyError(p, key, r.error)
    ensures FailureMessage(result).Some? && p != ReportPlain ==>
              r == Failure(ValidationError(Details(key, Render(FailureMessage(result).value))))
    ensures FailureMessage(result).Some? && p == ReportPlain ==>
              r == Failure(PlainError(CustomErrorPrefix + Render(FailureMessage(result).value)))
  {
    match FailureMessage(result)
    case Some(m) =>
      if p == ReportPlain then Failure(PlainError(CustomErrorPrefix + Render(m)))
      else Failure(ValidationError(Details(key, Render(m))))
    case None =>
      if p == RejectUndefined && result.Undefined? then Failure(PlainError(InvalidCustomFunction))
      else Success(result)
  }

  /** The transforms `fs` folded over `v`, front to back, with early exit. */
  function Fold(fs: seq<Transform>, v: Value, key: string, p: CustomPolicy): (r: Result<Value, Err>)
    ensures |fs| == 0 ==> r == Success(v)
    ensures r.Failure? ==> PolicyError(p, key, r.error)
    ensures |fs| > 0 && r.Success? ==> FailureMessage(r.value).None?
    ensures |fs| > 0 && r.Success? && p == RejectUndefined ==> !r.value.Undefined?
    decreases |fs|
  {
    if |fs| == 0 then Success(v)
    else
      var u :- Step(p, fs[0](v), key);
      Fold(fs[1..], u, key, p)
  }

  /** Feeds a successful result through `Fold`; a failure passes unchanged. */
  function Then(r: Result<Value, Err>, fs: seq<Transform>, key: string, p: CustomPolicy): Result<Value, Err> {
    match r
    case Failure(e) => Failure(e)
    case Success(u) => Fold(fs, u, key, p)
  }

  /** The loop of the source: walks the transforms with a running value. */
  method RunCustom(fs: seq<Transform>, v: Value, key: string, p: CustomPolicy) returns (r: Result<Value, Err>)
    ensures r == Fold(fs, v, key, p)
  {
    var current := v;
    var i := 0;
    while i < |fs|
      invariant 0 <= i <= |fs|
      invariant Fold(fs, v, key, p) == Fold(fs[i..], current, key, p)
    {
      assert fs[i..][0] == fs[i] && fs[i..][1..] == fs[i + 1..];
      var step := Step(p, fs[i](current), key);
      if step.Failure? {
        return step;
      }
      current := step.value;
      i := i + 1;
    }
    r := Success(current);
  }

  /** Running `a ++ b` is running `a`, then running `b` on its output. */
  lemma {:induction false} FoldConcat(a: seq<Transform>, b: seq<Transform>, v: Value, key: string, p: CustomPolicy)
    ensures Fold(a + b, v, key, p) == Then(Fold(a, v, key, p), b, key, p)
    decreases |a|
  {
    if |a| == 0 {
      assert a + b == b;
    } else {
      assert (a + b)[0] == a[0];
      assert (a + b)[1..] == a[1..] + b;
      match Step(p, a[0](v), key)
      case Failure(_) =>
      case Success(u) =>
        FoldConcat(a[1..], b, u, key, p);
    }
  }

  /** Appending a transform runs it last, on the output of all the others. */
  lemma FoldAppend(fs: seq<Transform>, f: Transform, v: Value, key: string, p: CustomPolicy)
    ensures Fold(fs + [f], v, key, p) ==
              match Fold(fs, v, key, p)
              case Failure(e) => Failure(e)
              case Success(u) => Step(p, f(u), key)
  {
    FoldConcat(fs, [f], v, key, p);
    match Fold(fs, v, key, p)
    case Failure(_) =>
    case Success(u) =>
      assert [f][1..] == [];
  }

  /** Once a prefix of the transforms has failed, the later ones never run. */
  lemma FoldEarlyExit(fs: seq<Transform>, n: nat, v: Value, key: string, p: CustomPolicy)
    requires n <= |fs|
    requires Fold(fs[..n], v, key, p).Failure?
    ensures Fold(fs, v, key, p) == Fold(fs[..n], v, key, p)
  {
    assert fs == fs[..n] + fs[n..];
    FoldConcat(fs[..n], fs[n..], v, key, p);
  }

  /** A single stored transform runs exactly once. */
  lemma FoldSingle(f: Transform, v: Value, key: string, p: CustomPolicy)
    ensures Fold([f], v, key, p) == Step(p, f(v), key)
  {
    assert [f][1..] == [];
  }
}
