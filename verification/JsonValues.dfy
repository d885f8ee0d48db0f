/** JavaScript data values as the document tools see them. Objects are finite maps. */
module JsonValues {

  datatype Value =
    | Undefined
    | Null
    | Bool(flag: bool)
    | Num(number: real)
    | Str(text: string)
    | Arr(items: seq<Value>)
    | Obj(fields: map<string, Value>)

  type Data = map<string, Value>
}

module Options {
  datatype Option<+T> = None | Some(value: T)
}
