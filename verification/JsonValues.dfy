/**
 JSON values up to the order of object members, which is the equality of a jsonb
 column. Strings are sequences of UTF-16 code units and numbers are integers.
 */
module JsonValues {

  type CodeUnit = n: int | 0 <= n < 0x10000

  type Text = seq<CodeUnit>

  datatype Value =
    | Null
    | Bool(flag: bool)
    | Num(n: int)
    | Str(text: Text)
    | Arr(items: seq<Value>)
    | Obj(members: map<Text, Value>)
}
