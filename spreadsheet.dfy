/**
 * The rows read from the uploaded workbook, the fixed column contract and the
 * file names a row asks for.
 */
module Spreadsheet {

  import opened Wrappers

  /** A cell as text; `None` stands for an empty (NaN) cell. */
  type Cell = Option<string>

  /** One row: column name to cell. */
  type Row = map<string, Cell>

  datatype Sheet = Sheet(columns: seq<string>, rows: seq<Row>)

  const StateColumn: string := "State Name"
  const DistrictColumn: string := "District Name"
  const LabelColumns: seq<string> := ["Label Number 1", "Label Number 2", "Label Number 3", "Label Number 4"]
  const RequiredColumns: seq<string> := [StateColumn, DistrictColumn] + LabelColumns

  /** `row[col]`; a column the row does not carry reads as an empty cell. */
  function CellOf(row: Row, col: string): Cell {
    if col in row then row[col] else None
  }

  /** Index of the first required column absent from `columns`, or `|required|`. */
  function FirstMissingIndex(required: seq<string>, columns: seq<string>): (k: nat)
    ensures k <= |required|
    ensures forall j :: 0 <= j < k ==> required[j] in columns
    ensures k < |required| ==> required[k] !in columns
  {
    if required == [] then 0
    else if required[0] !in columns then 0
    else 1 + FirstMissingIndex(required[1..], columns)
  }

  /** The column app.py:24-27 reports: the first missing one in list order. */
  function FirstMissing(columns: seq<string>): (missing: Option<string>)
    ensures missing.None? <==> forall c :: c in RequiredColumns ==> c in columns
    ensures missing.Some? ==>
      exists k :: && 0 <= k < |RequiredColumns| && missing.value == RequiredColumns[k]
                  && missing.value !in columns
                  && forall j :: 0 <= j < k ==> RequiredColumns[j] in columns
  {
    var k := FirstMissingIndex(RequiredColumns, columns);
    if k < |RequiredColumns| then Some(RequiredColumns[k]) else None
  }

  /** The validation loop of app.py:24-27: stops at the first absent column. */
  method FirstMissingColumn(columns: seq<string>) returns (missing: Option<string>)
    ensures missing == FirstMissing(columns)
    ensures missing.None? <==> forall c :: c in RequiredColumns ==> c in columns
    ensures missing.Some? ==> missing.value in RequiredColumns && missing.value !in columns
  {
    for i := 0 to |RequiredColumns|
      invariant forall j :: 0 <= j < i ==> RequiredColumns[j] in columns
    {
      if RequiredColumns[i] !in columns {
        return Some(RequiredColumns[i]);
      }
    }
    return None;
  }

  /** `f"{row[col]}.pdf"` (app.py:53): the suffix is appended unconditionally. */
  function PdfName(text: string): string {
    text + ".pdf"
  }

  predicate EndsWithPdf(name: string) {
    |name| >= 4 && name[|name| - 4..] == ".pdf"
  }

  /**
   * The expected name keeps the label text in front and always ends in ".pdf";
   * distinct labels give distinct names. A label that already ends in ".pdf"
   * gets a second suffix.
   */
  lemma PdfNameShape(text: string, other: string)
    ensures var n := PdfName(text);
      EndsWithPdf(n) && |n| == |text| + 4 && n[..|text|] == text
    ensures PdfName(text) == PdfName(other) ==> text == other
    ensures PdfName("ABC123.pdf") == "ABC123.pdf.pdf"
  {
    if PdfName(text) == PdfName(other) {
      assert text == PdfName(text)[..|text|];
      assert other == PdfName(other)[..|other|];
    }
  }

  /** Every name ending in ".pdf" is the expected name of the label that is its stem. */
  lemma PdfNameOfStem(name: string)
    requires EndsWithPdf(name)
    ensures PdfName(name[..|name| - 4]) == name
  {
    assert name == name[..|name| - 4] + name[|name| - 4..];
  }

  /** The names the first `k` text columns of `row` ask for, in column order, skipping empty cells. */
  function LabelNames(row: Row, k: nat): seq<string>
    requires k <= |LabelColumns|
  {
    if k == 0 then []
    else
      var cell := CellOf(row, LabelColumns[k - 1]);
      LabelNames(row, k - 1) + (if cell.Some? then [PdfName(cell.value)] else [])
  }

  function ExpectedNames(row: Row): seq<string> {
    LabelNames(row, |LabelColumns|)
  }

  /** The number of text cells among the first `k` that are not empty. */
  function FilledLabels(row: Row, k: nat): nat
    requires k <= |LabelColumns|
  {
    if k == 0 then 0
    else FilledLabels(row, k - 1) + (if CellOf(row, LabelColumns[k - 1]).Some? then 1 else 0)
  }

  /**
   * A row asks for one name per filled text cell and for nothing else: every
   * expected name is the text of one of the four text cells with ".pdf" added.
   */
  lemma {:induction false} LabelNamesFromCells(row: Row, k: nat)
    requires k <= |LabelColumns|
    ensures |LabelNames(row, k)| == FilledLabels(row, k)
    ensures forall n :: n in LabelNames(row, k) <==>
      exists j :: 0 <= j < k && CellOf(row, LabelColumns[j]).Some? && n == PdfName(CellOf(row, LabelColumns[j]).value)
  {
    if k > 0 {
      LabelNamesFromCells(row, k - 1);
      var c := CellOf(row, LabelColumns[k - 1]);
      forall n ensures n in LabelNames(row, k) <==>
        exists j :: 0 <= j < k && CellOf(row, LabelColumns[j]).Some? && n == PdfName(CellOf(row, LabelColumns[j]).value)
      {
        if n in LabelNames(row, k) && n !in LabelNames(row, k - 1) {
          assert c.Some? && n == PdfName(c.value);
        }
      }
    }
  }
}
