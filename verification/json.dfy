/**
 * `serde_json::Value`, the untyped document the workflow carries for node
 * parameters, credentials and settings. The workflow core never looks inside
 * one; it only stores, copies and compares them for equality. Numbers are
 * modelled as integers.
 */
module Json {

  datatype Value =
    | Null
    | Bool(b: bool)
    | Number(n: int)
    | String(s: string)
    | Array(items: seq<Value>)
    | Object(fields: map<string, Value>)

  /** `Value::Object(Map::new())`. */
  const EmptyObject: Value := Object(map[])
}
