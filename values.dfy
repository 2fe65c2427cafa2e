/**
 * The values that flow through the core: matrix values are scalars
 * (strings, integers, booleans, None); metadata values are arbitrary JSON
 * that the core never inspects.
 */
module Values {
  import Strings

  datatype Scalar = SStr(s: string) | SInt(i: int) | SBool(b: bool) | SNull

  datatype Json =
    | JNull
    | JBool(b: bool)
    | JInt(i: int)
    | JStr(s: string)
    | JArr(items: seq<Json>)
    | JObj(fields: seq<(string, Json)>)

  /** Python's `str(value)` on a scalar. */
  function Str(v: Scalar): string {
    match v
    case SStr(s) => s
    case SInt(i) => Strings.IntToString(i)
    case SBool(b) => if b then "True" else "False"
    case SNull => "None"
  }
}
