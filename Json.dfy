/** The values `json.loads` returns. */
module Json {

  /** A JSON document as Python sees it: `None`, `bool`, `int`, `str`, `list` or `dict`. */
  datatype Value =
    | JNull
    | JBool(b: bool)
    | JNumber(n: int)
    | JString(s: string)
    | JArray(items: seq<Value>)
    | JObject(fields: map<string, Value>)
}
