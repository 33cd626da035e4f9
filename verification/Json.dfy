/**
  JSON values with get and set at a field. Objects are unordered; byte layout, whitespace and
  number formatting are not represented.
 */
module Json {
  import opened Text

  datatype Json =
    | Null
    | Bool(b: bool)
    | Number(text: string)
    | Str(s: string)
    | Arr(items: seq<Json>)
    | Obj(fields: map<string, Json>)

  type Fields = map<string, Json>

  /** A composite value's text starts with its bracket; nothing else is known of it. */
  predicate MayBeText(j: Json, text: string) {
    |text| >= 2 && (j.Arr? ==> text[0] == '[') && (j.Obj? ==> text[0] == '{')
  }

  /** The raw text of a composite value: some fixed text for each value. */
  ghost function RawText(j: Json): string {
    assert MayBeText(j, if j.Obj? then "{}" else "[]");
    var text :| MayBeText(j, text); text
  }

  /** The value read as a string, as gjson does: any value has a text, and null reads as empty. */
  ghost function AsText(j: Json): string {
    match j
    case Null => ""
    case Bool(b) => if b then "true" else "false"
    case Number(text) => text
    case Str(s) => s
    case Arr(_) => RawText(j)
    case Obj(_) => RawText(j)
  }

  function Get(j: Json, field: string): Option<Json> {
    if j.Obj? && field in j.fields then Some(j.fields[field]) else None
  }

  function Get2(j: Json, outer: string, inner: string): Option<Json> {
    match Get(j, outer) case Some(o) => Get(o, inner) case None => None
  }

  /** Setting a field of something that is not an object starts a new object. */
  function Set(j: Json, field: string, value: Json): Json {
    Obj((if j.Obj? then j.fields else map[])[field := value])
  }

  /** The text at a field; a missing field reads as the empty string. */
  ghost function TextAt(j: Json, field: string): string {
    match Get(j, field) case Some(v) => AsText(v) case None => ""
  }

  /** The elements at a field: a missing field or null has none, a lone value counts as one element. */
  function ItemsAt(j: Json, field: string): seq<Json> {
    match Get(j, field)
    case None => []
    case Some(v) => if v.Null? then [] else if v.Arr? then v.items else [v]
  }

  function Strings(items: seq<string>): Json {
    Arr(seq(|items|, i requires 0 <= i < |items| => Str(items[i])))
  }
}
