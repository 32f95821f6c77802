/** `_getDefinitions()`: a validator tree described as data. Every node
    carries its type tag and its whole configuration record; an array node
    adds the description of its item validator and an object node the
    descriptions of its fields, in declaration order. */
module Definitions {
  import opened Results
  import opened Validators

  datatype Definition = Definition(typeName: string, cfg: Config, items: Items)

  /** What a node adds beside its configuration. */
  datatype Items =
    | NoItems
    | ItemDef(item: Definition)
    | FieldDefs(fields: seq<(string, Definition)>)

  function Define(s: Schema): (d: Definition)
    ensures d.typeName == TypeName(s) && d.cfg == s.cfg
    ensures s.ArraySchema? <==> d.items.ItemDef?
    ensures s.ObjectSchema? <==> d.items.FieldDefs?
    ensures s.ObjectSchema? ==> |d.items.fields| == |s.fields|
    ensures s.ObjectSchema? ==> forall i :: 0 <= i < |s.fields| ==> d.items.fields[i].0 == s.fields[i].0
    decreases s, 1
  {
    match s
    case StringSchema(c) => Definition("string", c, NoItems)
    case NumberSchema(c) => Definition("number", c, NoItems)
    case BooleanSchema(c) => Definition("boolean", c, NoItems)
    case ArraySchema(c, item) => Definition("array", c, ItemDef(Define(item)))
    case ObjectSchema(c, fields) => Definition("object", c, FieldDefs(DefineFields(s)))
  }

  function DefineFields(s: Schema): (ds: seq<(string, Definition)>)
    requires s.ObjectSchema?
    ensures |ds| == |s.fields|
    ensures forall i :: 0 <= i < |s.fields| ==> ds[i] == (s.fields[i].0, Define(s.fields[i].1))
    decreases s, 0
  {
    seq(|s.fields|, i requires 0 <= i < |s.fields| => (s.fields[i].0, Define(s.fields[i].1)))
  }

  /** Reads a validator back from its description; `None` when the type tag
      is unknown or does not agree with the shape of the items. */
  function Rebuild(d: Definition): (r: Option<Schema>)
    ensures r.Some? ==> TypeName(r.value) == d.typeName && r.value.cfg == d.cfg
    decreases d, 1
  {
    match d.items
    case NoItems =>
      if d.typeName == "string" then Some(StringSchema(d.cfg))
      else if d.typeName == "number" then Some(NumberSchema(d.cfg))
      else if d.typeName == "boolean" then Some(BooleanSchema(d.cfg))
      else None
    case ItemDef(item) =>
      if d.typeName != "array" then None
      else
        (match Rebuild(item)
         case None => None
         case Some(s) => Some(ArraySchema(d.cfg, s)))
    case FieldDefs(fields) =>
      if d.typeName != "object" then None
      else
        (match RebuildFields(d, fields)
         case None => None
         case Some(fs) => Some(ObjectSchema(d.cfg, fs)))
  }

  function RebuildFields(d: Definition, fields: seq<(string, Definition)>): (r: Option<seq<(string, Schema)>>)
    requires d.items.FieldDefs? && fields <= d.items.fields
    ensures r.Some? ==> |r.value| == |fields|
    decreases d, 0, |fields|
  {
    if |fields| == 0 then Some([])
    else
      var last := fields[|fields| - 1];
      assert last in d.items.fields;
      match Rebuild(last.1)
      case None => None
      case Some(s) =>
        (match RebuildFields(d, fields[..|fields| - 1])
         case None => None
         case Some(init) => Some(init + [(last.0, s)]))
  }

  /** The description loses nothing: the validator can be read back. */
  lemma {:induction false} RebuildDefine(s: Schema)
    ensures Rebuild(Define(s)) == Some(s)
    decreases s, 1
  {
    match s
    case StringSchema(_) =>
    case NumberSchema(_) =>
    case BooleanSchema(_) =>
    case ArraySchema(c, item) =>
      RebuildDefine(item);
    case ObjectSchema(c, fields) =>
      RebuildDefineFields(s, |fields|);
      assert DefineFields(s)[..|fields|] == DefineFields(s);
      assert fields[..|fields|] == fields;
  }

  lemma {:induction false} RebuildDefineFields(s: Schema, n: nat)
    requires s.ObjectSchema? && n <= |s.fields|
    ensures RebuildFields(Define(s), DefineFields(s)[..n]) == Some(s.fields[..n])
    decreases s, 0, n
  {
    var ds := DefineFields(s);
    if n > 0 {
      var f := s.fields[n - 1];
      assert f in s.fields;
      RebuildDefine(f.1);
      RebuildDefineFields(s, n - 1);
      assert ds[..n][..n - 1] == ds[..n - 1];
      assert s.fields[..n] == s.fields[..n - 1] + [(f.0, f.1)];
    }
  }
}
