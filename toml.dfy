/** The generic value tree that the external TOML parser yields. */
module Toml {

  /** One TOML value. Floating-point numbers carry no payload here: the model never looks at one. */
  datatype Value =
    | String(s: string)
    | Integer(i: int)
    | Float
    | Boolean(b: bool)
    | Datetime(text: string)
    | Array(elems: seq<Value>)
    | Table(entries: map<string, Value>)

  type Table = map<string, Value>
}
