/**
 * The parsed JSON value the converter works on (what `JSON.parse` hands back), and
 * `JSON.stringify` on it.
 */
module Json {

  import Decimal

  /**
   * The integers a JavaScript number holds exactly, from `Number.MIN_SAFE_INTEGER` to
   * `Number.MAX_SAFE_INTEGER`: for these `String(n)` writes every digit of `n`.
   */
  type SafeInt = n: int | -0x1F_FFFF_FFFF_FFFF <= n <= 0x1F_FFFF_FFFF_FFFF

  /**
   * A JSON value. Numbers are safe integers; an object keeps its members in enumeration
   * order.
   */
  datatype Json =
    | Null
    | Bool(b: bool)
    | Num(n: SafeInt)
    | Str(s: string)
    | Arr(elems: seq<Json>)
    | Obj(members: seq<(string, Json)>)

  /** A value with no further structure: anything but an array or an object. */
  predicate IsScalar(v: Json) {
    !v.Arr? && !v.Obj?
  }

  /** The sixteen characters `0123456789abcdef` as `JSON.stringify` writes them in `\u00XX`. */
  function HexDigit(d: nat): (c: char)
    requires d < 16
    ensures c as int >= 0x30
  {
    if d < 10 then ('0' as int + d) as char else ('a' as int + d - 10) as char
  }

  /** How `JSON.stringify` writes one character inside a string literal. */
  function EscapeJsonChar(c: char): (r: string)
    ensures |r| > 0 && forall i :: 0 <= i < |r| ==> r[i] as int >= 0x20
    ensures c as int >= 0x20 && c != '"' && c != '\\' ==> r == [c]
  {
    if c == '"' then "\\\""
    else if c == '\\' then "\\\\"
    else if c as int == 0x08 then "\\b"
    else if c as int == 0x0c then "\\f"
    else if c == '\n' then "\\n"
    else if c == '\r' then "\\r"
    else if c == '\t' then "\\t"
    else if c as int < 0x20 then "\\u00" + [HexDigit(c as int / 16), HexDigit(c as int % 16)]
    else [c]
  }

  function EscapeJsonChars(s: string): (r: string)
    ensures forall i :: 0 <= i < |r| ==> r[i] as int >= 0x20
  {
    if s == [] then [] else EscapeJsonChar(s[0]) + EscapeJsonChars(s[1..])
  }

  /** A JSON string literal: quoted, with no raw control character inside. */
  function QuoteJson(s: string): (r: string)
    ensures |r| >= 2 && r[0] == '"' && r[|r| - 1] == '"'
    ensures forall i :: 0 <= i < |r| ==> r[i] as int >= 0x20
  {
    "\"" + EscapeJsonChars(s) + "\""
  }

  /**
   * `JSON.stringify(v)`: the compact JSON text of `v`. It is one line: no tab, line feed
   * or other control character appears in it raw.
   */
  function Stringify(v: Json): (r: string)
    ensures |r| > 0 && forall i :: 0 <= i < |r| ==> r[i] as int >= 0x20
    ensures v.Arr? ==> r[0] == '[' && r[|r| - 1] == ']'
    ensures v.Obj? ==> r[0] == '{' && r[|r| - 1] == '}'
  {
    match v
    case Null => "null"
    case Bool(b) => if b then "true" else "false"
    case Num(n) => Decimal.IntToString(n)
    case Str(s) => QuoteJson(s)
    case Arr(elems) => "[" + StringifyElems(elems) + "]"
    case Obj(members) => "{" + StringifyMembers(members) + "}"
  }

  function StringifyElems(elems: seq<Json>): (r: string)
    ensures forall i :: 0 <= i < |r| ==> r[i] as int >= 0x20
  {
    if elems == [] then ""
    else Stringify(elems[0]) + (if |elems| == 1 then "" else "," + StringifyElems(elems[1..]))
  }

  function StringifyMembers(members: seq<(string, Json)>): (r: string)
    ensures forall i :: 0 <= i < |r| ==> r[i] as int >= 0x20
  {
    if members == [] then ""
    else
      assert members[0].1 < members[0];
      QuoteJson(members[0].0) + ":" + Stringify(members[0].1)
      + (if |members| == 1 then "" else "," + StringifyMembers(members[1..]))
  }

  /** Escaping leaves printable text other than `"` and backslash as it is. */
  lemma {:induction false} EscapeJsonCharsPlain(s: string)
    requires forall i :: 0 <= i < |s| ==> s[i] as int >= 0x20 && s[i] != '"' && s[i] != '\\'
    ensures EscapeJsonChars(s) == s
  {
    if s != [] {
      EscapeJsonCharsPlain(s[1..]);
    }
  }

  /** A string with nothing to escape is stringified as itself between double quotes. */
  lemma StringifyPlainString(s: string)
    requires forall i :: 0 <= i < |s| ==> s[i] as int >= 0x20 && s[i] != '"' && s[i] != '\\'
    ensures Stringify(Str(s)) == "\"" + s + "\""
  {
    EscapeJsonCharsPlain(s);
  }
}
