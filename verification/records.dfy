/**
  The data the dashboard works on: the CSV table as pandas' reader hands it
  over (a header row and rows of typed cells), the loaded flight records, and
  lookup of a column by its name.
 */
module Records {
  import opened Wrappers
  import opened Groups

  /** One cell as the CSV reader types it: missing (NaN), a number, or text. */
  datatype Cell = Blank | Num(x: real) | Text(s: string)

  /** A calendar date: the date part of a timestamp (pandas' `.dt.date`). */
  datatype Date = Date(year: int, month: int, day: int)

  /** A parsed timestamp: its calendar date and the time within that day. */
  datatype DateTime = DateTime(date: Date, timeOfDay: nat)

  /** Dates in calendar order. */
  predicate Before(a: Date, b: Date) {
    || a.year < b.year
    || (a.year == b.year && a.month < b.month)
    || (a.year == b.year && a.month == b.month && a.day < b.day)
  }

  /** The CSV file as the reader returns it: the header row and the data rows. */
  datatype RawTable = RawTable(header: seq<string>, rows: seq<seq<Cell>>)

  /** The cell of a row at a column position; the reader fills missing trailing cells with NaN. */
  function CellAt(row: seq<Cell>, i: nat): Cell {
    if i < |row| then row[i] else Blank
  }

  /**
    One flight after loading: the row's cells as read, the parsed `Date` column,
    and the derived `Duration (minutes)` column (None where it is NaN).
   */
  datatype Flight = Flight(cells: seq<Cell>, stamp: DateTime, minutes: Option<real>)

  /** The loaded table: the normalised column names and the flights that survived the date filter. */
  datatype FlightLog = FlightLog(columns: seq<string>, flights: seq<Flight>)

  /** The calendar date a flight is grouped under. */
  function DateOf(f: Flight): Date {
    f.stamp.date
  }

  /** The value of column i of a flight, as a grouping key. */
  function CellOf(i: nat): Flight -> Cell {
    (f: Flight) => CellAt(f.cells, i)
  }

  // The column names the dashboard reads, after normalisation.
  const DateSourceColumn := "Date (YYYY-MM-DD HH:MM:SS)"
  const SecondsColumn := "Duration (seconds)"
  const AltitudeColumn := "Max Altitude ( m)"
  const PilotColumn := "Pilot in Command Email"
  const ProjectColumn := "ProjectGUID"
  const FlightTypeColumn := "Flight Type"

  /**
    Why `df[name]` cannot be used as one column: pandas raises KeyError for a
    missing name, and a name carried by several columns yields a frame, on
    which every use the dashboard makes of a column raises.
   */
  datatype ColumnError = MissingColumn(name: string) | DuplicateColumn(name: string)

  /** The position of the first column called name. */
  function FirstIndex(columns: seq<string>, name: string): (i: nat)
    requires name in columns
    ensures i < |columns| && columns[i] == name
    ensures name !in columns[..i]
  {
    if columns[0] == name then 0
    else
      var i := 1 + FirstIndex(columns[1..], name);
      assert columns[..i] == [columns[0]] + columns[1..][..i - 1];
      i
  }

  /** The position of the one column called name, or why there is none. */
  function ColumnIndex(columns: seq<string>, name: string): (r: Result<nat, ColumnError>)
    ensures r.Success? <==> Occurrences(columns, name) == 1
    ensures r.Success? ==> r.value < |columns| && columns[r.value] == name
    ensures r == Failure(MissingColumn(name)) <==> name !in columns
    ensures r == Failure(DuplicateColumn(name)) <==> Occurrences(columns, name) > 1
  {
    if name !in columns then Failure(MissingColumn(name))
    else if Occurrences(columns, name) > 1 then Failure(DuplicateColumn(name))
    else Success(FirstIndex(columns, name))
  }
}
