/**
 * The converter object: it keeps the last successfully converted records and offers
 * them for download as CSV. Reading the page, drawing the table and showing the
 * notification are left to the caller; the methods return what would be shown.
 */
module Converter {

  import opened Wrappers
  import opened Json
  import opened Flattener
  import opened Csv
  import Decimal

  /** The characters `String.prototype.trim` removes: white space and line terminators. */
  predicate IsJsWhitespace(c: char) {
    var n := c as int;
    n == 0x09 || n == 0x0A || n == 0x0B || n == 0x0C || n == 0x0D || n == 0x20 || n == 0xA0
    || n == 0x1680 || (0x2000 <= n <= 0x200A) || n == 0x2028 || n == 0x2029 || n == 0x202F
    || n == 0x205F || n == 0x3000 || n == 0xFEFF
  }

  /** The first index from `i` on that does not hold white space. */
  function SkipLeading(s: string, i: nat): (j: nat)
    requires i <= |s|
    ensures i <= j <= |s|
    ensures forall k :: i <= k < j ==> IsJsWhitespace(s[k])
    ensures j == |s| || !IsJsWhitespace(s[j])
    decreases |s| - i
  {
    if i < |s| && IsJsWhitespace(s[i]) then SkipLeading(s, i + 1) else i
  }

  /** The least index `e`, down to `lo`, such that only white space lies between `e` and `j`. */
  function SkipTrailing(s: string, lo: nat, j: nat): (e: nat)
    requires lo <= j <= |s|
    ensures lo <= e <= j
    ensures forall k :: e <= k < j ==> IsJsWhitespace(s[k])
    ensures e == lo || !IsJsWhitespace(s[e - 1])
    decreases j
  {
    if j > lo && IsJsWhitespace(s[j - 1]) then SkipTrailing(s, lo, j - 1) else j
  }

  /** `s.trim()`. */
  function Trim(s: string): string
  {
    var i := SkipLeading(s, 0);
    s[i..SkipTrailing(s, i, |s|)]
  }

  /**
   * Trimming removes white space at both ends and nothing else: the result is a slice of
   * the input with only white space before and after it, it neither starts nor ends with
   * white space, and it is empty exactly when the input is blank.
   */
  lemma TrimSpec(s: string)
    ensures exists i, j :: (0 <= i <= j <= |s| && Trim(s) == s[i..j]
      && (forall k :: 0 <= k < i ==> IsJsWhitespace(s[k]))
      && (forall k :: j <= k < |s| ==> IsJsWhitespace(s[k])))
    ensures Trim(s) == [] || (!IsJsWhitespace(Trim(s)[0]) && !IsJsWhitespace(Trim(s)[|Trim(s)| - 1]))
    ensures Trim(s) == [] <==> forall k :: 0 <= k < |s| ==> IsJsWhitespace(s[k])
  {
    var i := SkipLeading(s, 0);
    var j := SkipTrailing(s, i, |s|);
    assert Trim(s) == s[i..j];
    if i < j {
      assert Trim(s)[0] == s[i] && Trim(s)[|Trim(s)| - 1] == s[j - 1];
      assert !IsJsWhitespace(s[i]);
    }
  }

  datatype NoticeKind = SuccessNotice | ErrorNotice

  /** The notification the page shows: its kind and its text. */
  datatype Notice = Notice(kind: NoticeKind, message: string)

  /** The file `downloadCSV` hands to the browser. */
  datatype Download = Download(fileName: string, content: string)

  class JsonTableConverter {

    /** The records of the last successful conversion; none before the first. */
    var currentData: seq<Record>

    constructor ()
      ensures currentData == []
    {
      currentData := [];
    }

    /**
     * `handleConvert`: blank input is refused; otherwise the trimmed input is parsed
     * with `parse` (standing for `JSON.parse`). A parse error leaves the records of the
     * previous conversion in place; a successful parse replaces them.
     */
    method HandleConvert(input: string, parse: string -> Result<Json, string>) returns (notice: Notice)
      modifies this
      ensures Trim(input) == [] ==>
        notice == Notice(ErrorNotice, "Please enter JSON data.") && currentData == old(currentData)
      ensures Trim(input) != [] && parse(Trim(input)).Failure? ==>
        notice == Notice(ErrorNotice, "\U{26A0}\U{FE0F} JSON parse error: " + parse(Trim(input)).error)
        && currentData == old(currentData)
      ensures Trim(input) != [] && parse(Trim(input)).Success? ==>
        currentData == ParseAndFlatten(parse(Trim(input)).value)
        && notice == Notice(SuccessNotice, "\U{2705} Conversion successful! (" + Decimal.IntToString(|currentData|) + " rows)")
    {
      var trimmed := Trim(input);
      if trimmed == [] {
        notice := Notice(ErrorNotice, "Please enter JSON data.");
        return;
      }
      match parse(trimmed)
      case Failure(message) =>
        notice := Notice(ErrorNotice, "\U{26A0}\U{FE0F} JSON parse error: " + message);
      case Success(data) =>
        var flattened := ParseAndFlatten(data);
        currentData := flattened;
        notice := Notice(SuccessNotice, "\U{2705} Conversion successful! (" + Decimal.IntToString(|flattened|) + " rows)");
    }

    /**
     * `downloadCSV`: refused while there are no records; otherwise the CSV of the current
     * records behind a UTF-8 byte order mark, in a file named after the date `isoNow`
     * (the text of `new Date().toISOString()`) begins with.
     */
    method DownloadCsv(isoNow: string) returns (notice: Notice, file: Option<Download>)
      ensures currentData == [] ==>
        notice == Notice(ErrorNotice, "No data to download. Please convert JSON first.") && file == None
      ensures currentData != [] ==>
        notice == Notice(SuccessNotice, "\U{1F4E5} CSV file downloaded successfully!") && file.Some?
        && file.value.content == "\U{FEFF}" + ConvertToCsv(currentData)
        && file.value.fileName == "json-table-" + isoNow[..if |isoNow| < 10 then |isoNow| else 10] + ".csv"
    {
      if |currentData| == 0 {
        notice := Notice(ErrorNotice, "No data to download. Please convert JSON first.");
        file := None;
        return;
      }
      var csvContent := ConvertToCsv(currentData);
      var date := isoNow[..if |isoNow| < 10 then |isoNow| else 10];
      file := Some(Download("json-table-" + date + ".csv", "\U{FEFF}" + csvContent));
      notice := Notice(SuccessNotice, "\U{1F4E5} CSV file downloaded successfully!");
    }
  }
}
