/** Typed access to the cells of one spreadsheet row (`Row`). */
module Rows {
  import opened Outcomes
  import opened Calendar
  import opened Timestamps

  /** A cell as the spreadsheet service returns it: absent (`null`) or its string form. */
  type Cell = Option<string>

  /** One row of the schedule sheet. The Java constructor rejects a `null` list, which has no
      counterpart here. */
  datatype Row = Row(cells: seq<Cell>)

  /** `size()`: the number of cells of the wrapped row. */
  function Size(row: Row): (n: nat)
    ensures n == |row.cells|
  {
    |row.cells|
  }

  /** `getAsOptionalString(index)`: `None` for a null cell, otherwise the cell's string form.
      Reading outside the row throws in Java, hence the precondition. */
  function GetAsOptionalString(row: Row, index: int): (r: Option<string>)
    requires 0 <= index < Size(row)
    ensures r.None? <==> row.cells[index].None?
    ensures r.Some? ==> r == row.cells[index]
  {
    row.cells[index]
  }

  /** `getAsString(index)`: the cell text, or `null` (`None`) exactly when the cell is null;
      `getOrNull` maps `None` to `null`, which both stand for here. */
  function GetAsString(row: Row, index: int): (r: Option<string>)
    requires 0 <= index < Size(row)
    ensures r.None? <==> row.cells[index].None?
    ensures r.Some? ==> r.value == row.cells[index].value
  {
    GetAsOptionalString(row, index)
  }

  /** `getAsLocalDateTime(index, M/dd/yyyy h:mm a)`: `null` for a null cell, the parsed
      date-time for a matching cell, and a parse failure (not `null`) for any other text. The
      formatter is fixed here, so the Java null check on it has no counterpart. */
  function GetAsLocalDateTime(row: Row, index: int): (r: Result<Option<LocalDateTime>>)
    requires 0 <= index < Size(row)
    ensures row.cells[index].None? ==> r == Ok(None)
    ensures row.cells[index].Some? && ParseStamp(row.cells[index].value).Some? ==>
              r == Ok(Some(ParseStamp(row.cells[index].value).value))
    ensures row.cells[index].Some? && ParseStamp(row.cells[index].value).None? ==>
              r == Err(DateTimeParse(row.cells[index].value))
  {
    match GetAsOptionalString(row, index)
    case None => Ok(None)
    case Some(text) =>
      match ParseStamp(text)
      case Some(dt) => Ok(Some(dt))
      case None => Err(DateTimeParse(text))
  }
}
