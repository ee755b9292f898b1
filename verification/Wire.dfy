/** Values as they arrive over the dApp channel or from storage: JSON plus `undefined`. */
module Wire {

  /** A number is carried by the text `String(n)` gives for it. */
  datatype Value =
    | Undefined
    | Null
    | Bool(b: bool)
    | Num(text: string)
    | Str(s: string)
    | Arr(items: seq<Value>)
    | Obj(fields: map<string, Value>)

  predicate IsNullish(v: Value) { v.Undefined? || v.Null? }

  predicate IsObject(v: Value) { v.Arr? || v.Obj? }  // typeof v === "object" && v !== null

  /** `v[key]` on anything that is not null or undefined; `v?.[key]` otherwise. */
  function Field(v: Value, key: string): Value
  {
    if v.Obj? && key in v.fields then v.fields[key] else Undefined
  }

  predicate Has(v: Value, key: string) { v.Obj? && key in v.fields }

  function Arg(args: seq<Value>, i: nat): Value
  {
    if i < |args| then args[i] else Undefined
  }

  predicate Falsy(v: Value)
  {
    match v
    case Undefined => true
    case Null => true
    case Bool(b) => !b
    case Num(t) => t == "0" || t == "NaN"
    case Str(s) => s == ""
    case _ => false
  }

  /** `String(v)`. */
  function ToStr(v: Value): string
  {
    match v
    case Undefined => "undefined"
    case Null => "null"
    case Bool(b) => if b then "true" else "false"
    case Num(t) => t
    case Str(s) => s
    case Obj(_) => "[object Object]"
    case Arr(items) => CommaJoin(items)
  }

  function CommaJoin(items: seq<Value>): string
  {
    if items == [] then ""
    else
      var head := if IsNullish(items[0]) then "" else ToStr(items[0]);
      if |items| == 1 then head else head + "," + CommaJoin(items[1..])
  }
}
