/** How one table cell is written: its text and the style class it is given. */
module Cells {

  import opened Json
  import opened Flattener
  import Decimal
  import Wrappers

  /** What reading `row[key]` can give: `undefined` for a missing key, or the stored value. */
  datatype JsValue = Undefined | Defined(json: Json)

  /** `row[key]`. */
  function Lookup(row: Record, key: string): (v: JsValue)
    ensures v.Undefined? <==> key !in row
    ensures key in row ==> v.json == row[key]
  {
    if key in row then Defined(row[key]) else Undefined
  }

  /** `row[key] ?? ''`: a missing key and a stored null both read as the empty string. */
  function CellValue(row: Record, key: string): (v: Json)
    ensures key !in row || row[key].Null? ==> v == Str("")
    ensures key in row && !row[key].Null? ==> v == row[key]
  {
    match Lookup(row, key)
    case Undefined => Str("")
    case Defined(j) => if j.Null? then Str("") else j
  }

  /**
   * `formatCellValue`: null as `null`, undefined as nothing, a boolean as `true` or
   * `false`, an array or object as its JSON text, anything else as its string form.
   */
  function FormatCellValue(value: JsValue): (r: string)
    ensures value == Undefined ==> r == ""
    ensures value == Defined(Null) ==> r == "null"
    ensures value.Defined? && value.json.Bool? ==> (r == "true" <==> value.json.b) && (r == "false" <==> !value.json.b)
    ensures value.Defined? && value.json.Num? ==>
      r == Decimal.IntToString(value.json.n) && Decimal.ParseInt(r) == Wrappers.Some(value.json.n as int)
    ensures value.Defined? && value.json.Str? ==> r == value.json.s
    ensures value.Defined? && !IsScalar(value.json) ==> r == Stringify(value.json)
  {
    match value
    case Undefined => ""
    case Defined(j) =>
      match j
      case Null => "null"
      case Bool(b) => if b then "true" else "false"
      case Arr(_) => Stringify(j)
      case Obj(_) => Stringify(j)
      case Num(n) => Decimal.IntToStringRoundTrip(n); Decimal.IntToString(n)
      case Str(s) => s
  }

  /** `getCellClassName`: the style class of a cell, one per kind of value. */
  function GetCellClassName(value: JsValue): (r: string)
    ensures r == "cell-null" <==> value.Undefined? || value.json.Null?
    ensures r == "cell-boolean" <==> value.Defined? && value.json.Bool?
    ensures r == "cell-number" <==> value.Defined? && value.json.Num?
    ensures r == "cell-string" <==> value.Defined? && value.json.Str?
    ensures r == "cell-object" <==> value.Defined? && !IsScalar(value.json)
  {
    if value.Undefined? || value.json.Null? then "cell-null"
    else if value.json.Bool? then "cell-boolean"
    else if value.json.Num? then "cell-number"
    else if value.json.Str? then "cell-string"
    else "cell-object"
  }

  /** The text of the cell for column `key` in `row`, as the table and the CSV write it. */
  function CellText(row: Record, key: string): string
  {
    FormatCellValue(Defined(CellValue(row, key)))
  }

  /** The style class of the cell for column `key` in `row`. */
  function CellClass(row: Record, key: string): string
  {
    GetCellClassName(Defined(CellValue(row, key)))
  }

  /**
   * A column the record lacks and a stored null both give an empty cell styled as a
   * string: neither `null` nor the `cell-null` class ever reaches the table or the CSV.
   */
  lemma AbsentAndNullCells(row: Record, key: string)
    requires key !in row || row[key] == Null
    ensures CellText(row, key) == ""
    ensures CellClass(row, key) == "cell-string"
  {
  }

  /**
   * For a record of scalars (every record the flattener makes) a cell is never styled
   * `cell-null` or `cell-object`, and `JSON.stringify` is never used to write it.
   */
  lemma FlattenedCells(row: Record, key: string)
    requires forall k :: k in row ==> IsScalar(row[k])
    ensures CellClass(row, key) in {"cell-boolean", "cell-number", "cell-string"}
    ensures IsScalar(CellValue(row, key))
    ensures key in row && row[key].Str? ==> CellText(row, key) == row[key].s
  {
  }
}
