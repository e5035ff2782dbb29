/**
 * The JSON values `JSON.parse` produces, with the JavaScript readings the
 * scraper applies to them: property lookup, truthiness and `String(v)`.
 */
module Json {
  import opened Optional
  import opened Text

  /** Numbers are integers in this model; an object keeps its members in document order. */
  datatype Json =
    | Null
    | Bool(b: bool)
    | Num(n: int)
    | Str(s: string)
    | Arr(items: seq<Json>)
    | Obj(fields: seq<(string, Json)>)

  /**
   * Index of the member a property read `obj[key]` sees: `JSON.parse` keeps
   * the last of duplicated keys.
   */
  function FieldIndex(fields: seq<(string, Json)>, key: string): (r: Option<nat>)
    ensures r.Some? ==> r.value < |fields| && fields[r.value].0 == key
    ensures r.Some? ==> forall i :: r.value < i < |fields| ==> fields[i].0 != key
    ensures r.None? ==> forall i :: 0 <= i < |fields| ==> fields[i].0 != key
  {
    if |fields| == 0 then None
    else if fields[|fields| - 1].0 == key then Some(|fields| - 1)
    else FieldIndex(fields[..|fields| - 1], key)
  }

  /** Some member has the key. */
  predicate HasKey(fields: seq<(string, Json)>, key: string) {
    exists i :: 0 <= i < |fields| && fields[i].0 == key
  }

  /** The last member with the key holds `v`. */
  predicate LastBinding(fields: seq<(string, Json)>, key: string, v: Json) {
    exists i :: 0 <= i < |fields| && fields[i] == (key, v) && forall j :: i < j < |fields| ==> fields[j].0 != key
  }

  /** `obj[key]`; `None` is `undefined`. */
  function Get(fields: seq<(string, Json)>, key: string): (r: Option<Json>)
    ensures r.Some? <==> HasKey(fields, key)
    ensures r.Some? ==> LastBinding(fields, key, r.value)
  {
    match FieldIndex(fields, key)
    case Some(i) => Some(fields[i].1)
    case None => None
  }

  /** `!v` for a property value (`undefined`, `null`, `false`, `0` and `""` are falsy). */
  predicate Falsy(v: Option<Json>) {
    match v
    case None => true
    case Some(Null) => true
    case Some(Bool(b)) => !b
    case Some(Num(n)) => n == 0
    case Some(Str(s)) => s == ""
    case Some(_) => false
  }

  /** `String(v)`; an array joins its elements with commas, rendering `null` elements as empty. */
  function JsString(v: Json): (r: string)
    ensures v.Arr? && |v.items| == 1 && v.items[0].Str? ==> r == v.items[0].s
    ensures v.Num? && v.n >= 0 ==> r == NatToString(v.n)
  {
    match v
    case Null => "null"
    case Bool(b) => if b then "true" else "false"
    case Num(n) => IntToString(n)
    case Str(s) => s
    case Arr(items) =>
      assert |items| == 1 && items[0].Str? ==> items[1..] == [] && ElementStrings(items) == [items[0].s];
      Join(ElementStrings(items), ",")
    case Obj(_) => "[object Object]"
  }

  function ElementStrings(items: seq<Json>): (r: seq<string>)
    ensures |r| == |items|
  {
    if |items| == 0 then []
    else [if items[0].Null? then "" else JsString(items[0])] + ElementStrings(items[1..])
  }
}
