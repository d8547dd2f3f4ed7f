/** The JavaScript values that settings files and recorded protocol frames are made of. */
module JsValues {
  /** A number stands for its `Object.is` class; a missing property reads as `Undefined`. */
  datatype Value =
    | Undefined
    | Null
    | Bool(b: bool)
    | Number(n: int)
    | Text(s: string)
    | List(items: seq<Value>)
    | Record(fields: map<string, Value>)

  /** The name whose assignment sets an object's prototype instead of a property. */
  const PROTO := "__proto__"

  /** The names every plain object inherits, so that `in` finds them in any record. */
  const INHERITED: set<string> := {
    "constructor", "hasOwnProperty", "isPrototypeOf", "propertyIsEnumerable", "toLocaleString", "toString",
    "valueOf", PROTO, "__defineGetter__", "__defineSetter__", "__lookupGetter__", "__lookupSetter__"}

  function Property(fields: map<string, Value>, key: string): Value {
    if key in fields then fields[key] else Undefined
  }
}
