/**
 * Spreadsheet cells, workbooks, and the Python exceptions a row can raise.
 * An exception that escapes a script is an `Err` value; one the script
 * catches is modelled where it is caught.
 */
module Cells {
  import opened PyText
  import opened PyDates

  /**
   * One cell as the spreadsheet readers deliver it. `DateC` is a date or
   * date-time (an instance of `datetime.date`), `TimeC` a `datetime.time`,
   * `Empty` a missing value (pandas' NaN, or `None` from the ODS reader).
   */
  datatype Cell = Str(s: string) | DateC(date: CalDate) | TimeC(time: ClockTime) | IntC(n: int) | Empty

  datatype PyError = IndexError | KeyError | AttributeError | TypeError | ValueError

  datatype Result<+T> = Ok(value: T) | Err(error: PyError)

  /** openpyxl's `sheet_state`. */
  datatype SheetState = Visible | Hidden | VeryHidden

  /** A worksheet: its title, its state and the rows pandas yields for it. */
  datatype Sheet = Sheet(title: string, state: SheetState, values: seq<seq<Cell>>)

  /** One record written through `logging`. */
  datatype LogLine = LogError(message: string) | LogWarning(message: string)

  /** `row[i]` for a non-negative index. */
  function CellAt(row: seq<Cell>, i: nat): (r: Result<Cell>)
    ensures r.Ok? <==> i < |row|
    ensures r.Ok? ==> r.value == row[i]
    ensures r.Err? ==> r.error == IndexError
  {
    if i < |row| then Ok(row[i]) else Err(IndexError)
  }

  /** `c.lower()`: only a string cell has it. */
  function CellLower(c: Cell): (r: Result<string>)
    ensures r.Ok? <==> c.Str?
    ensures r.Ok? ==> r.value == Lower(c.s)
    ensures r.Ok? ==> |r.value| == |c.s| && forall i :: 0 <= i < |r.value| ==> !IsUpperAscii(r.value[i])
    ensures r.Err? ==> r.error == AttributeError
  {
    if c.Str? then Ok(Lower(c.s)) else Err(AttributeError)
  }

  /**
   * `str(c)`, as an f-string renders the cell: a date-time as
   * 'YYYY-MM-DD 00:00:00', a time as 'HH:MM:00', a missing value as 'nan'.
   */
  function CellText(c: Cell): string {
    match c
    case Str(s) => s
    case IntC(n) => IntToStr(n)
    case DateC(d) => Pad4(d.year) + "-" + Pad2(d.month) + "-" + Pad2(d.day) + " 00:00:00"
    case TimeC(t) => Pad2(t.hour) + ":" + Pad2(t.minute) + ":00"
    case Empty => "nan"
  }
}
