/**
  `load_data` (app.py lines 12-18): normalise the header, parse the timestamp
  column tolerantly, drop the rows whose timestamp did not parse, and derive
  `Duration (minutes)` from `Duration (seconds)`.

  Each statement of `load_data` replaces a whole column of a local frame that
  no caller sees half-built, so the steps are written as functions composed in
  the order the statements run.
 */
module Loader {
  import opened Wrappers
  import opened Groups
  import opened Records
  import opened Header

  /** A row after lines 15-16: its cells as read and its parsed `Date`. */
  datatype Dated = Dated(cells: seq<Cell>, stamp: DateTime)

  /** Why `load_data` raises: a column it reads is not there once (KeyError and the like), or a seconds cell holds text (TypeError). */
  datatype LoadError = BadColumn(error: ColumnError) | DurationNotNumeric

  /**
    `pd.to_datetime(..., errors='coerce')` on one cell: a missing cell is NaT,
    any other cell is what the date parser makes of it, None standing for NaT.
   */
  function ParseCell(parse: Cell -> Option<DateTime>, c: Cell): (t: Option<DateTime>)
    ensures c == Blank ==> t == None
    ensures c != Blank ==> t == parse(c)
  {
    if c == Blank then None else parse(c)
  }

  predicate Parses(parse: Cell -> Option<DateTime>, di: nat, row: seq<Cell>) {
    ParseCell(parse, CellAt(row, di)).Some?
  }

  /** How many rows have a timestamp that does not parse. */
  function Unparsed(rows: seq<seq<Cell>>, di: nat, parse: Cell -> Option<DateTime>): (n: nat)
    ensures n <= |rows|
  {
    if rows == [] then 0
    else (if Parses(parse, di, rows[0]) then 0 else 1) + Unparsed(rows[1..], di, parse)
  }

  /**
    Lines 15-16: parse column di of every row and keep exactly the rows where
    that worked, each with its parsed timestamp.
   */
  function DropUnparsed(rows: seq<seq<Cell>>, di: nat, parse: Cell -> Option<DateTime>): (r: seq<Dated>)
    ensures |r| + Unparsed(rows, di, parse) == |rows|
    ensures forall j :: 0 <= j < |r| ==> r[j].cells in rows && ParseCell(parse, CellAt(r[j].cells, di)) == Some(r[j].stamp)
    ensures forall i :: 0 <= i < |rows| && Parses(parse, di, rows[i]) ==>
              Dated(rows[i], ParseCell(parse, CellAt(rows[i], di)).value) in r
  {
    if rows == [] then []
    else
      var rest := DropUnparsed(rows[1..], di, parse);
      assert forall i :: 1 <= i < |rows| ==> rows[i] == rows[1..][i - 1];
      match ParseCell(parse, CellAt(rows[0], di))
      case None => rest
      case Some(t) => [Dated(rows[0], t)] + rest
  }

  /**
    Dropping works row by row, so the rows that survive keep their relative
    order: filtering a concatenation concatenates the filtered parts.
   */
  lemma {:induction false} DropUnparsedAppend(a: seq<seq<Cell>>, b: seq<seq<Cell>>, di: nat, parse: Cell -> Option<DateTime>)
    ensures DropUnparsed(a + b, di, parse) == DropUnparsed(a, di, parse) + DropUnparsed(b, di, parse)
  {
    if a == [] {
      assert a + b == b;
    } else {
      assert (a + b)[0] == a[0] && (a + b)[1..] == a[1..] + b;
      DropUnparsedAppend(a[1..], b, di, parse);
      var x, y := DropUnparsed(a[1..], di, parse), DropUnparsed(b, di, parse);
      match ParseCell(parse, CellAt(a[0], di))
      case None =>
      case Some(t) =>
        assert [Dated(a[0], t)] + (x + y) == ([Dated(a[0], t)] + x) + y;
    }
  }

  /** One row survives, with its parsed timestamp, exactly when that timestamp parses. */
  lemma DropUnparsedOne(row: seq<Cell>, di: nat, parse: Cell -> Option<DateTime>)
    ensures DropUnparsed([row], di, parse) ==
      if Parses(parse, di, row) then [Dated(row, ParseCell(parse, CellAt(row, di)).value)] else []
  {
    assert [row][1..] == [];
  }

  /** `Duration (minutes)` holds seconds / 60 where the seconds cell is a number and NaN where it is missing. */
  predicate MinutesFromSeconds(minutes: Option<real>, seconds: Cell) {
    && (minutes.Some? <==> seconds.Num?)
    && (minutes.Some? ==> minutes.value * 60.0 == seconds.x)
  }

  /**
    Line 17: divide column si of every surviving row by 60. Dividing a text
    cell raises, so the result is None exactly when some surviving row has text
    there.
   */
  function AddMinutes(rows: seq<Dated>, si: nat): (r: Option<seq<Flight>>)
    ensures r.None? <==> exists j :: 0 <= j < |rows| && CellAt(rows[j].cells, si).Text?
    ensures r.Some? ==> |r.value| == |rows|
    ensures r.Some? ==> forall j :: 0 <= j < |rows| ==>
              && r.value[j].cells == rows[j].cells
              && r.value[j].stamp == rows[j].stamp
              && MinutesFromSeconds(r.value[j].minutes, CellAt(rows[j].cells, si))
  {
    if rows == [] then Some([])
    else
      assert forall j :: 1 <= j < |rows| ==> rows[j] == rows[1..][j - 1];
      var minutes :=
        match CellAt(rows[0].cells, si)
        case Num(x) => Some(Some(x / 60.0))
        case Blank => Some(None)
        case Text(_) => None;
      match (minutes, AddMinutes(rows[1..], si))
      case (Some(m), Some(rest)) => Some([Flight(rows[0].cells, rows[0].stamp, m)] + rest)
      case _ => None
  }

  /** The loaded flights without their derived minutes. */
  function Undated(fs: seq<Flight>): seq<Dated> {
    seq(|fs|, j requires 0 <= j < |fs| => Dated(fs[j].cells, fs[j].stamp))
  }

  /** Some row has text in some column called name. */
  predicate TextIn(dated: seq<Dated>, columns: seq<string>, name: string) {
    exists j, c :: 0 <= j < |dated| && 0 <= c < |columns| && columns[c] == name && CellAt(dated[j].cells, c).Text?
  }

  /** When name occurs once, text under that name is text in the one column the lookup finds. */
  lemma TextInOnlyColumn(dated: seq<Dated>, columns: seq<string>, name: string, ci: nat)
    requires ColumnIndex(columns, name) == Success(ci)
    ensures TextIn(dated, columns, name) <==> exists j :: 0 <= j < |dated| && CellAt(dated[j].cells, ci).Text?
  {
    forall c | 0 <= c < |columns| && columns[c] == name ensures c == ci {
      SecondOccurrence(columns, name, c, ci);
    }
  }

  /**
    Some row that survives the date filter has text in a column called
    `Duration (seconds)`. When several columns carry that name, line 17
    divides all of them, so text in any of them counts.
   */
  predicate TextSeconds(columns: seq<string>, rows: seq<seq<Cell>>, parse: Cell -> Option<DateTime>) {
    && ColumnIndex(columns, DateSourceColumn).Success?
    && TextIn(DropUnparsed(rows, ColumnIndex(columns, DateSourceColumn).value, parse), columns, SecondsColumn)
  }

  /**
    Lines 15-17 on a table whose header is already normalised. Line 15 reads
    the timestamp column before line 17 reads the seconds column, so a problem
    with the former is the one reported. Line 17 divides before it assigns:
    with several seconds columns the division over all of them raises first
    when one holds text, and only otherwise does the assignment of several
    columns to one raise.
   */
  function LoadRows(columns: seq<string>, rows: seq<seq<Cell>>, parse: Cell -> Option<DateTime>): (r: Result<FlightLog, LoadError>)
    ensures ColumnIndex(columns, DateSourceColumn).Failure? ==>
              r == Failure(BadColumn(ColumnIndex(columns, DateSourceColumn).error))
    ensures ColumnIndex(columns, DateSourceColumn).Success? && ColumnIndex(columns, SecondsColumn).Failure? && !TextSeconds(columns, rows, parse) ==>
              r == Failure(BadColumn(ColumnIndex(columns, SecondsColumn).error))
    ensures r == Failure(DurationNotNumeric) <==> TextSeconds(columns, rows, parse)
    ensures r.Success? <==>
              && ColumnIndex(columns, DateSourceColumn).Success?
              && ColumnIndex(columns, SecondsColumn).Success?
              && !TextSeconds(columns, rows, parse)
    ensures r.Success? ==> r.value.columns == columns
  {
    match ColumnIndex(columns, DateSourceColumn)
    case Failure(e) => Failure(BadColumn(e))
    case Success(di) =>
      var dated := DropUnparsed(rows, di, parse);
      match ColumnIndex(columns, SecondsColumn)
      case Failure(e) => if TextIn(dated, columns, SecondsColumn) then Failure(DurationNotNumeric) else Failure(BadColumn(e))
      case Success(si) =>
        TextInOnlyColumn(dated, columns, SecondsColumn, si);
        match AddMinutes(dated, si)
        case None => Failure(DurationNotNumeric)
        case Some(flights) => Success(FlightLog(columns, flights))
  }

  /**
    The whole of `load_data`: line 14, then lines 15-17. The file loads iff
    its normalised header has each column the load reads once and no kept row
    has text as its seconds; the flights are then the rows whose timestamp
    parses, in order, each with its seconds / 60 as minutes.
   */
  function Load(raw: RawTable, parse: Cell -> Option<DateTime>): (r: Result<FlightLog, LoadError>)
    ensures r.Success? <==>
              var columns := NormaliseHeader(raw.header);
              && ColumnIndex(columns, DateSourceColumn).Success?
              && ColumnIndex(columns, SecondsColumn).Success?
              && !TextSeconds(columns, raw.rows, parse)
    ensures r.Success? ==> |r.value.columns| == |raw.header|
    ensures r.Success? ==> forall i :: 0 <= i < |raw.header| ==> r.value.columns[i] == NormaliseName(raw.header[i])
    ensures r.Success? ==> forall i :: 0 <= i < |r.value.columns| ==> '"' !in r.value.columns[i]
    ensures r.Success? ==>
              var columns := NormaliseHeader(raw.header);
              var si := ColumnIndex(columns, SecondsColumn).value;
              && Undated(r.value.flights) == DropUnparsed(raw.rows, ColumnIndex(columns, DateSourceColumn).value, parse)
              && forall j :: 0 <= j < |r.value.flights| ==>
                   MinutesFromSeconds(r.value.flights[j].minutes, CellAt(r.value.flights[j].cells, si))
  {
    var r := LoadRows(NormaliseHeader(raw.header), raw.rows, parse);
    if r.Success? then LoadedFlights(NormaliseHeader(raw.header), raw.rows, parse); r else r
  }

  /**
    What a successful load holds: both columns it reads are present once, the
    flights are exactly the rows whose timestamp parsed, in their original
    order and with their cells unchanged, each carrying its parsed `Date`, and
    each one's minutes are its seconds divided by 60.
   */
  lemma LoadedFlights(columns: seq<string>, rows: seq<seq<Cell>>, parse: Cell -> Option<DateTime>)
    requires LoadRows(columns, rows, parse).Success?
    ensures var log := LoadRows(columns, rows, parse).value;
      && ColumnIndex(columns, DateSourceColumn).Success?
      && ColumnIndex(columns, SecondsColumn).Success?
      && var di := ColumnIndex(columns, DateSourceColumn).value;
         var si := ColumnIndex(columns, SecondsColumn).value;
         && Undated(log.flights) == DropUnparsed(rows, di, parse)
         && |log.flights| + Unparsed(rows, di, parse) == |rows|
         && forall j :: 0 <= j < |log.flights| ==>
              && log.flights[j].cells in rows
              && ParseCell(parse, CellAt(log.flights[j].cells, di)) == Some(log.flights[j].stamp)
              && MinutesFromSeconds(log.flights[j].minutes, CellAt(log.flights[j].cells, si))
  {
    var di := ColumnIndex(columns, DateSourceColumn).value;
    var si := ColumnIndex(columns, SecondsColumn).value;
    var dated := DropUnparsed(rows, di, parse);
    var flights := AddMinutes(dated, si).value;
    assert LoadRows(columns, rows, parse).value == FlightLog(columns, flights);
    assert Undated(flights) == dated;
  }
}
