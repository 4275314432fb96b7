/** Parsed TOML documents, as the `toml` package hands them to the script:
    a document is a table, tables map keys to values. Parsing and printing of
    the text form are not modelled. */
module Toml {

  datatype Value =
    | Str(s: string)
    /** integers, floats, booleans and dates: the script only ever tests them with `in` */
    | Scalar(literal: string)
    | Arr(items: seq<Value>)
    | Table(fields: map<string, Value>)

  type Document = map<string, Value>
}
