/** Decoded JSON, as Go's any holds it. */
module JsonValues {
  datatype Json =
    | Null
    | Bool(value: bool)
    | Num(number: real)
    | Str(text: string)
    | Arr(items: seq<Json>)
    | Obj(fields: map<string, Json>)

  type Object = j: Json | j.Obj? witness Obj(map[])
}
