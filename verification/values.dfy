/** JSON-like input values as JavaScript sees them, and the few runtime
    operations the validators apply to them: `typeof`, key lookup in an
    object, rendering to a string, and recognising the `{ message }`
    failure descriptor a custom transform may return. */
module Values {
  import opened Results
  import Text

  /** An object is a sequence of entries in insertion order; a JavaScript
      object never has two entries with the same key (see `DistinctKeys`). */
  datatype Value =
    | Undefined
    | Null
    | Str(s: string)
    | Num(n: int)
    | Bool(b: bool)
    | Arr(items: seq<Value>)
    | Obj(fields: seq<(string, Value)>)

  /** JavaScript's `typeof`: `null` and arrays are both "object". */
  function TypeOf(v: Value): (t: string)
    ensures t == "string" <==> v.Str?
    ensures t == "number" <==> v.Num?
    ensures t == "boolean" <==> v.Bool?
    ensures t == "object" <==> v.Null? || v.Arr? || v.Obj?
    ensures t == "undefined" <==> v.Undefined?
  {
    match v
    case Undefined => "undefined"
    case Null => "object"
    case Str(_) => "string"
    case Num(_) => "number"
    case Bool(_) => "boolean"
    case Arr(_) => "object"
    case Obj(_) => "object"
  }

  function Keys<T>(entries: seq<(string, T)>): (ks: seq<string>)
    ensures |ks| == |entries|
    ensures forall i :: 0 <= i < |entries| ==> ks[i] == entries[i].0
  {
    seq(|entries|, i requires 0 <= i < |entries| => entries[i].0)
  }

  predicate DistinctKeys<T>(entries: seq<(string, T)>) {
    forall i, j :: 0 <= i < j < |entries| ==> entries[i].0 != entries[j].0
  }

  /** Position of the first entry with key `k`, if any. */
  function IndexOf<T>(entries: seq<(string, T)>, k: string): (r: Option<nat>)
    ensures r.Some? ==> r.value < |entries| && entries[r.value].0 == k
    ensures r.Some? ==> forall j :: 0 <= j < r.value ==> entries[j].0 != k
    ensures r.None? <==> k !in Keys(entries)
    decreases |entries|
  {
    if |entries| == 0 then None
    else if entries[0].0 == k then Some(0)
    else
      match IndexOf(entries[1..], k)
      case None => None
      case Some(i) => Some(i + 1)
  }

  /** JavaScript's `String(v)`; inside an array, `null` and `undefined`
      render as the empty string and elements are separated by ",". */
  function Render(v: Value): string
    decreases v, 0
  {
    match v
    case Undefined => "undefined"
    case Null => "null"
    case Str(s) => s
    case Num(n) => Text.IntToString(n)
    case Bool(b) => if b then "true" else "false"
    case Arr(items) => Text.Join(seq(|items|, i requires 0 <= i < |items| => RenderElement(items[i])), ",")
    case Obj(_) => "[object Object]"
  }

  function RenderElement(v: Value): string
    decreases v, 1
  {
    if v.Null? || v.Undefined? then "" else Render(v)
  }

  /** `values.join(sep)`, as used when an error lists the allow/deny list. */
  function JoinValues(values: seq<Value>, sep: string): string {
    Text.Join(seq(|values|, i requires 0 <= i < |values| => RenderElement(values[i])), sep)
  }

  /** A custom transform signals failure by returning an object that has a
      `message` key; `Some(m)` carries the value stored under that key. */
  function FailureMessage(v: Value): (r: Option<Value>)
    ensures r.Some? <==> v.Obj? && "message" in Keys(v.fields)
    ensures r.Some? ==> (exists i :: 0 <= i < |v.fields| && v.fields[i] == ("message", r.value))
  {
    if v.Obj? then
      match IndexOf(v.fields, "message")
      case Some(i) => Some(v.fields[i].1)
      case None => None
    else None
  }
}
