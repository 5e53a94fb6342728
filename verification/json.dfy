/** JSON values as the contamination page reads them after parsing: property access, truthiness,
    `typeof … === 'object'`, `Object.keys` and template-literal rendering. */
module Json {
  import opened Options
  import opened Text

  datatype Json =
    | JNull
    | JBool(b: bool)
    | JNum(n: int)
    | JStr(s: string)
    | JArr(items: seq<Json>)
    | JObj(fields: seq<Field>)

  /** One own property of an object, in insertion order. */
  datatype Field = Field(key: string, value: Json)

  /** JavaScript truthiness of a possibly undefined value (`None` is `undefined`). */
  predicate Truthy(v: Option<Json>) {
    match v
    case None => false
    case Some(j) =>
      match j
      case JNull => false
      case JBool(b) => b
      case JNum(n) => n != 0
      case JStr(s) => s != ""
      case _ => true
  }

  /** `typeof v === 'object'`: objects, arrays and `null`. */
  predicate IsObjectType(v: Json) {
    v.JNull? || v.JArr? || v.JObj?
  }

  /** The value of the first field named `key`. */
  function FieldValue(fields: seq<Field>, key: string): (r: Option<Json>)
    ensures r.None? <==> forall i | 0 <= i < |fields| :: fields[i].key != key
    ensures r.Some? ==> exists i | 0 <= i < |fields| :: fields[i] == Field(key, r.value)
  {
    if |fields| == 0 then None
    else if fields[0].key == key then Some(fields[0].value)
    else
      var r := FieldValue(fields[1..], key);
      assert forall i | 0 < i < |fields| :: fields[i] == fields[1..][i - 1];
      r
  }

  /** `v.key` for a value that is not `null` or `undefined`: only objects have the named
      properties the page reads; for any other value the property is `undefined`. */
  function Prop(v: Json, key: string): (r: Option<Json>)
    ensures r.Some? ==> v.JObj?
    ensures v.JObj? ==> r == FieldValue(v.fields, key)
  {
    if v.JObj? then FieldValue(v.fields, key) else None
  }

  /** The index keys "0", "1", … paired with the values at those indices. */
  function IndexFields(items: seq<Json>): (r: seq<Field>)
    ensures |r| == |items|
    ensures forall i | 0 <= i < |items| :: r[i] == Field(NatToString(i), items[i])
  {
    seq(|items|, i requires 0 <= i < |items| => Field(NatToString(i), items[i]))
  }

  /** `Object.keys(v)` together with `v[key]`: `None` when `Object.keys` throws, which it does
      for `null`; strings and arrays list their indices; numbers and booleans have no keys. */
  function Entries(v: Json): (r: Option<seq<Field>>)
    ensures r.None? <==> v.JNull?
    ensures v.JObj? ==> r == Some(v.fields)
    ensures v.JArr? ==> r.Some? && |r.value| == |v.items|
    ensures v.JStr? ==> r.Some? && |r.value| == |v.s|
    ensures v.JBool? || v.JNum? ==> r == Some([])
  {
    match v
    case JNull => None
    case JBool(_) => Some([])
    case JNum(_) => Some([])
    case JStr(s) => Some(IndexFields(seq(|s|, i requires 0 <= i < |s| => JStr([s[i]]))))
    case JArr(items) => Some(IndexFields(items))
    case JObj(fields) => Some(fields)
  }

  /** `${v}` in a template literal. */
  function Render(v: Json): string {
    match v
    case JNull => "null"
    case JBool(b) => if b then "true" else "false"
    case JNum(n) => IntToString(n)
    case JStr(s) => s
    case JArr(items) => RenderItems(items)
    case JObj(_) => "[object Object]"
  }

  /** `items.join(",")`, where `null` elements render as the empty string. */
  function RenderItems(items: seq<Json>): string
    decreases items
  {
    if |items| == 0 then ""
    else
      var head := if items[0].JNull? then "" else Render(items[0]);
      if |items| == 1 then head else head + "," + RenderItems(items[1..])
  }
}
