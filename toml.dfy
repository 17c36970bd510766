/** The parsed TOML document, reduced to the kinds of values a runner declaration uses. */
module Toml {
  import opened Wrappers

  datatype Value =
    | Str(s: string)
    | Int(i: int)
    | Bool(b: bool)
    | Array(items: seq<Value>)
    | Table(entries: map<string, Value>)

  /** `Value::get`: the entry of a table under `key`, and nothing for any other kind of value. */
  function Get(v: Value, key: string): Option<Value>
  {
    if v.Table? && key in v.entries then Some(v.entries[key]) else None
  }

  /** The string stored under `key`, when `v` is a table holding a string there. */
  function StrField(v: Value, key: string): Option<string>
  {
    match Get(v, key)
    case Some(Str(s)) => Some(s)
    case _ => None
  }
}
