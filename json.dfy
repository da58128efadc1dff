/** JSON values as the service handles them (request bodies, audit details) and
    `JSON.stringify` on them. Numbers are integers; objects list their
    properties in enumeration order. */
module Json {

  datatype Json =
    | JNull
    | JBool(b: bool)
    | JNum(n: int)
    | JStr(s: string)
    | JArr(items: seq<Json>)
    | JObj(fields: seq<(string, Json)>)

  function Digit(d: nat): char
    requires d < 10
  {
    "0123456789"[d]
  }

  function HexDigit(d: nat): char
    requires d < 16
  {
    "0123456789abcdef"[d]
  }

  /** Decimal rendering of a natural number. */
  function NatToString(n: nat): (r: string)
    ensures |r| > 0 && '0' <= r[|r| - 1] <= '9'
  {
    if n < 10 then [Digit(n)] else NatToString(n / 10) + [Digit(n % 10)]
  }

  function IntToString(n: int): (r: string)
    ensures |r| > 0 && '0' <= r[|r| - 1] <= '9'
  {
    if n < 0 then "-" + NatToString(-n) else NatToString(n)
  }

  /** The escape `JSON.stringify` writes for one character of a string. */
  function EscapeChar(c: char): string {
    if c == '"' then "\\\""
    else if c == '\\' then "\\\\"
    else if c as int == 0x08 then "\\b"
    else if c as int == 0x0C then "\\f"
    else if c == '\n' then "\\n"
    else if c == '\r' then "\\r"
    else if c == '\t' then "\\t"
    else if (c as int) < 0x20 then "\\u00" + [HexDigit((c as int) / 16), HexDigit((c as int) % 16)]
    else [c]
  }

  function Escape(s: string): string
    decreases |s|
  {
    if s == [] then "" else EscapeChar(s[0]) + Escape(s[1..])
  }

  function Quote(s: string): string {
    "\"" + Escape(s) + "\""
  }

  /** The pieces joined by commas, as `JSON.stringify` lays out members. */
  function JoinComma(parts: seq<string>): string
    decreases |parts|
  {
    if parts == [] then ""
    else if |parts| == 1 then parts[0]
    else parts[0] + "," + JoinComma(parts[1..])
  }

  /** `JSON.stringify(j)`, without indentation. The last character of the
      text is never a '.', whatever the value. */
  function Stringify(j: Json): (r: string)
    ensures |r| > 0 && r[|r| - 1] != '.'
  {
    match j
    case JNull => "null"
    case JBool(b) => if b then "true" else "false"
    case JNum(n) => IntToString(n)
    case JStr(s) => Quote(s)
    case JArr(items) =>
      "[" + JoinComma(seq(|items|, i requires 0 <= i < |items| => Stringify(items[i]))) + "]"
    case JObj(fields) =>
      "{" + JoinComma(seq(|fields|, i requires 0 <= i < |fields| =>
                            Quote(fields[i].0) + ":" + Stringify(fields[i].1))) + "}"
  }

  /** `b` has the shape of `a`: the same kind of value at every position,
      arrays of the same length, objects with the same keys in the same order,
      and equal non-string leaves. */
  predicate SameShape(a: Json, b: Json) {
    match a
    case JStr(_) => b.JStr?
    case JArr(items) =>
      b.JArr? && |b.items| == |items| && forall i :: 0 <= i < |items| ==> SameShape(items[i], b.items[i])
    case JObj(fields) =>
      b.JObj? && |b.fields| == |fields| &&
      forall i :: 0 <= i < |fields| ==> b.fields[i].0 == fields[i].0 && SameShape(fields[i].1, b.fields[i].1)
    case _ => b == a
  }

  /** JavaScript truthiness of a value: null, false, 0 and the empty string are falsy. */
  predicate JsTruthy(j: Json) {
    match j
    case JNull => false
    case JBool(b) => b
    case JNum(n) => n != 0
    case JStr(s) => s != ""
    case _ => true
  }
}
