# JSON-to-table converter, modelled in Dafny

This project models the data pipeline of the JSON table converter in
`script-improved.js`. The pipeline turns a parsed JSON value into records of flattened
key paths. It collects the column set shared by all records and chooses the text and
style class of each cell. It then writes the records as CSV with RFC 4180 quoting.
The `JSONTableConverter` object keeps the last converted records between "convert" and
"download CSV".

The modules follow the stages of the program:

- `Json`: the parsed JSON value, and `JSON.stringify` for the cells that show a whole
  array or object.
- `Decimal`: `String(n)` for safe integers (magnitude below 2^53), and a reader that
  inverts it.
- `Flattener`: `flattenObject` and `parseAndFlatten`.
  - The method `FlattenObject` mirrors the source's in-place accumulation. It is proved
    equal to the fold `Flatten`.
  - `Flatten` is proved equal to writing the value's leaves, in order, into the
    accumulator (`Assign` over `Leaves`).
- `StringOrder`: the order `Array.prototype.sort` uses on strings (UTF-16 code units),
  and the sorted sequence of a set of keys.
- `Columns`: `getAllKeys`, as a method with loops proved against `AllKeys`.
- `Cells`: the `row[key] ?? ''` lookup, `formatCellValue` and `getCellClassName`.
- `Csv`:
  - `escapeCSVField` and `convertToCSV`.
  - A reader for the CSV they write. It is proved to give back every field and every
    line.
- `Converter`: the `JSONTableConverter` class, with its `currentData` field and the
  `handleConvert` and `downloadCSV` operations. These return the notification and the
  file they would produce instead of touching the page.

Two behaviours of the code are worth knowing, because a reader might expect otherwise:

- Columns are sorted (`script-improved.js:161`). They are not kept in the order the keys
  were first seen.
- A record does not always have one key per leaf. Paths can collide, and the
  later write wins. `Flattener.CollidingPathsExample` shows an object with two leaves
  that flattens to one key.

## Model

| member | source | states |
|---|---|---|
| Flattener.FlattenObject | script-improved.js:82-111 | the recursive, accumulator-updating flattening returns exactly the fold `Flatten` of the value into the given accumulator, for every value, prefix and accumulator |
| Flattener.IndexKey | script-improved.js:93 | an array element's key is the prefix, then `[`, then the index in decimal, then `]` |
| Flattener.IndexKeyInjective | script-improved.js:92-94 | different elements of one array get different keys |
| Flattener.MemberKey | script-improved.js:102 | a member's key is the bare member name under an empty prefix, and otherwise the prefix, then `.`, then the member name |
| Flattener.MemberKeyInjective | script-improved.js:101-104 | different members of one object get different keys |
| Flattener.FlattenIsAssign | script-improved.js:82-111 | flattening writes the value's leaves one after another into the accumulator, so the result is the accumulator updated by those writes in order |
| Flattener.ElemsIsAssign | script-improved.js:92-94 | the array loop writes the leaves of elements `i..` in order, into the map it was given |
| Flattener.MembersIsAssign | script-improved.js:101-104 | the object loop writes the leaves of members `i..` in order, into the map it was given |
| Flattener.LeavesShape | script-improved.js:83-108 | every value writes at least one leaf (exactly `LeafCount` of them); every value written is a scalar, null, `"[]"` or `"{}"`, never a container; every key written extends the prefix |
| Flattener.FlattenStoresOnlyScalars | script-improved.js:82-111 | a record built from a record of scalars holds only scalars: no array or object is ever stored |
| Flattener.FlattenDomain | script-improved.js:82-111 | a key is in the result exactly when it was in the accumulator or is the key of one of the value's leaves |
| Flattener.FlattenLaterWriteWins | script-improved.js:82-111 | a leaf whose key no later leaf reuses keeps its value in the result (colliding paths: the later write wins) |
| Flattener.FlattenSize | script-improved.js:82-111 | when no two leaves share a key and none was already present, the record gains exactly `LeafCount` keys |
| Flattener.AssignLastWins | script-improved.js:82-111 | of several writes to one key, the last one's value is stored |
| Flattener.AssignUntouched | script-improved.js:82-111 | a key that no write touches keeps its old value |
| Flattener.FlattenBaseCases | script-improved.js:83-108 | at the root, null gives `{"": null}`, `[]` gives `{"": "[]"}`, `{}` gives `{"": "{}"}`, and any scalar `x` gives `{"": x}` |
| Flattener.ParseAndFlatten | script-improved.js:113-121 | an array root gives one record per element, in order (the flattening of that element); any other root gives a one-record list |
| Flattener.ParseAndFlattenRows | script-improved.js:113-121 | every record produced is non-empty and holds only scalars |
| Flattener.SingleObjectRootExample | script-improved.js:116-117 | `{"x":[1,2]}` becomes the single record `{"x[0]": 1, "x[1]": 2}` |
| Flattener.CollidingPathsExample | script-improved.js:101-104 | `{"a.b":1,"a":{"b":2}}` has two leaves but flattens to `{"a.b": 2}` |
| StringOrder.LessIsCodeUnitOrder | script-improved.js:161 | the per-character comparison `Less` is exactly the lexicographic order of the strings' UTF-16 code units, which the default sort uses |
| StringOrder.LessTransitive | script-improved.js:161 | the sort order is transitive |
| StringOrder.LessConnected | script-improved.js:161 | any two different strings are ordered one way or the other |
| StringOrder.LessAsymmetric | script-improved.js:161 | the sort order is asymmetric |
| StringOrder.LessIrreflexive | script-improved.js:161 | the sort order is irreflexive |
| StringOrder.SortedKeys | script-improved.js:161 | the sorted keys are strictly ascending, hold exactly the set's elements, and as many as the set has |
| StringOrder.SortedKeysUnique | script-improved.js:161 | any strictly ascending listing of a set's elements is `SortedKeys` of it, so the sort has one possible outcome |
| Columns.KeyUnionMembers | script-improved.js:157-160 | a key is collected exactly when some record has it |
| Columns.AllKeysSpec | script-improved.js:156-162 | the columns are strictly ascending and without duplicates; a key is a column if and only if some record has it; no records give no columns |
| Columns.AllKeysNonEmpty | script-improved.js:156-162 | when the first record has a key there is at least one column |
| Columns.GetAllKeys | script-improved.js:156-162 | the loops over records and their keys, followed by the sort, return exactly `AllKeys` |
| Cells.CellValue | script-improved.js:187 | `row[key] ?? ''`: a missing key and a stored null read as `""`; any other value reads as itself |
| Cells.FormatCellValue | script-improved.js:196-202 | undefined gives `""`, null gives `"null"`, booleans give `"true"` / `"false"`, a number gives its decimal text `IntToString`, which reads back as that number, a string is itself, and an array or object gives its JSON text |
| Cells.GetCellClassName | script-improved.js:204-210 | each of the five classes is chosen if and only if the value is of its kind (null or undefined, boolean, number, string, object) |
| Cells.AbsentAndNullCells | script-improved.js:187-189 | a column the record lacks and a stored null both give an empty cell with class `cell-string` |
| Cells.FlattenedCells | script-improved.js:187-189 | for a flattened record a cell's class is boolean, number or string, its value is a scalar, and a string cell shows the string unchanged |
| Decimal.IntToStringRoundTrip | script-improved.js:201 | the decimal text of an integer reads back as that integer |
| Decimal.IntToStringInjective | script-improved.js:201 | different integers get different texts |
| Decimal.IntToString | script-improved.js:201 | the text is non-empty, starts with `-` exactly for negative numbers, and has no leading zero (`0` itself is `"0"`) |
| Json.Stringify | script-improved.js:200 | the JSON text is non-empty, has no control characters, and is bracketed by `[ ]` for arrays and by `{ }` for objects |
| Json.StringifyPlainString | script-improved.js:200 | a string without quotes, backslashes or control characters is written as itself between double quotes |
| Csv.EscapeCsvField | script-improved.js:270-280 | null or undefined gives `""`; a field without comma, quote, CR or LF is unchanged; any other field is enclosed in quotes with its quotes doubled |
| Csv.EscapeCsvFieldRoundTrip | script-improved.js:270-280 | reading an escaped field gives back the original text, whatever it contains |
| Csv.ReadFieldEscaped | script-improved.js:270-280 | an escaped field followed by a comma, a newline or nothing reads back as the field, and the reader stops at that separator |
| Csv.ParseRecordLine | script-improved.js:260-265 | a comma-joined line of escaped fields reads back as exactly those fields |
| Csv.ParseDocumentLines | script-improved.js:267 | newline-joined lines read back as the table of their fields |
| Csv.ConvertToCsvLines | script-improved.js:255-268 | the conversion of one or more records is the escaped lines of its table joined by LF |
| Csv.ConvertToCsv | script-improved.js:256-258 | no records give the empty text |
| Csv.ConvertToCsvReadsBack | script-improved.js:255-268 | reading the CSV back gives exactly the header and every cell text, in order |
| Csv.ParsedCsvReadsBack | script-improved.js:113-268 | for every parsed input with at least one record, the CSV of its records reads back as their table |
| Csv.SingleRecordCsv | script-improved.js:267 | a single record's CSV is the header line, an LF and the value line |
| Csv.EndToEndExample | script-improved.js:113-268 | `[{"a":1,"b":{"c":2}}]` becomes the CSV `a,b.c` LF `1,2` |
| Csv.ExampleRecord | script-improved.js:113-121 | `[{"a":1,"b":{"c":2}}]` flattens to the record `{"a": 1, "b.c": 2}` |
| Csv.ExampleColumns | script-improved.js:156-162 | that record's columns are `a`, `b.c` |
| Converter.TrimSpec | script-improved.js:65 | trimming leaves a slice of the input with only white space cut off at either end; the result neither starts nor ends with white space; it is empty exactly when the input is all white space |
| Converter.JsonTableConverter.constructor | script-improved.js:3-6 | a new converter holds no records |
| Converter.JsonTableConverter.HandleConvert | script-improved.js:64-80 | blank input is refused with "Please enter JSON data." and the records are kept; a parse error is reported with its message and the records are kept; otherwise the records become the flattened input and the row count is reported |
| Converter.JsonTableConverter.DownloadCsv | script-improved.js:231-250 | with no records it reports "No data to download. Please convert JSON first." and produces no file; otherwise the file is a byte order mark followed by the CSV, named `json-table-<date>.csv`, and success is reported |

## Left out

- The page: reading the input box, drawing the table, the header and row stripes, file
  upload through `FileReader`, the `Blob` and link click of the download, and the
  notification element with its timer. The methods return what would be shown or saved.
- `JSON.parse` is not part of this model. `HandleConvert` takes it as a function
  parameter that gives either a value or an error message.
- `new Date().toISOString()` is a parameter of `DownloadCsv`.
- The catch branch of `downloadCSV` is left out. It reports an error raised by the
  browser's `Blob` or link APIs, and nothing in the model can raise one.
- An error raised while drawing the table in `handleConvert` is left out, for the same
  reason. The source keeps the new records and reports that error.
- Numbers are safe integers, of magnitude below 2^53. Larger integral numbers are not
  modelled: for them `String(n)` writes the shortest digits that identify the stored
  double, padded with zeros, rather than every digit.
- An object with two members of the same name is outside the model. `JSON.parse` never
  returns one: it keeps one member, with the last value.
- Numbers that are not integers are not modelled: fractions, exponent notation, `-0`,
  `NaN` and the infinities, which `String(n)` and `JSON.stringify` format in their own
  ways.
- Strings are sequences of Unicode scalar values, so lone UTF-16 surrogates cannot
  occur.
- Records are maps, so the order of a record's own keys is not modelled. Only sorted
  columns ever reach the output.
- The special order in which JavaScript enumerates integer-like member names
  (`"0"`, `"1"`, …) is not modelled. A member list is walked in the order given.
- Keys that JavaScript objects treat specially are not modelled. `__proto__` is not
  stored as an own key. Inherited names such as `constructor` read as present when a
  record lacks them.
- A stack overflow on very deeply nested input is not modelled.
- Pivoting, Markdown output and plain-text output do not exist in `script-improved.js`.
- The constructor leaves `currentData` undefined, and `downloadCSV` treats that like an
  empty list. The model starts from the empty list.
