/**
 Rows of a spreadsheet as the sheet commands see them: a cell is the text that `%v` prints for it.
 */
module Sheet {
  import opened Text

  datatype Cell = Cell(text: string)

  type Row = seq<Cell>

  /** cellStr of internal/api/sheets_ops.go. */
  function CellStr(row: Row, i: nat): string {
    if i < |row| then TrimSpace(row[i].text) else ""
  }
}
