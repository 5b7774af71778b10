/**
  The worked example of a three-row log: two flights on the same day, 120 and
  60 seconds long, 50 m and 30 m high, and a row whose timestamp does not
  parse. Loading keeps the first two; the dashboard shows one day with two
  flights, 0.05 flight hours and a maximum altitude of 50 m.
 */
module Example {
  import opened Wrappers
  import opened Groups
  import opened Records
  import opened Loader
  import opened Metrics
  import opened Daily
  import opened Header
  import opened Categories

  /** A header that names the three columns the example uses, in that order. */
  const ExampleColumns := [DateSourceColumn, SecondsColumn, AltitudeColumn]

  /** The three rows; a, b and c are the timestamp texts. */
  function ExampleRows(a: string, b: string, c: string): seq<seq<Cell>> {
    [ [Text(a), Num(120.0), Num(50.0)],
      [Text(b), Num(60.0), Num(30.0)],
      [Text(c), Num(90.0), Num(10.0)] ]
  }

  /** The log the example should load to. */
  function ExampleLog(a: string, b: string, t1: DateTime, t2: DateTime): FlightLog {
    FlightLog(ExampleColumns,
      [ Flight([Text(a), Num(120.0), Num(50.0)], t1, Some(2.0)),
        Flight([Text(b), Num(60.0), Num(30.0)], t2, Some(1.0)) ])
  }

  lemma ExampleColumnsFound()
    ensures ColumnIndex(ExampleColumns, DateSourceColumn) == Success(0)
    ensures ColumnIndex(ExampleColumns, SecondsColumn) == Success(1)
    ensures ColumnIndex(ExampleColumns, AltitudeColumn) == Success(2)
  {
    assert |DateSourceColumn| == 26 && |SecondsColumn| == 18 && |AltitudeColumn| == 17;
    assert Occurrences(ExampleColumns, DateSourceColumn) == 1;
    assert Occurrences(ExampleColumns, SecondsColumn) == 1;
    assert Occurrences(ExampleColumns, AltitudeColumn) == 1;
  }

  /** The row whose timestamp does not parse is dropped; the other two keep their parsed timestamps. */
  lemma ExampleDropped(a: string, b: string, c: string, parse: Cell -> Option<DateTime>, t1: DateTime, t2: DateTime)
    requires parse(Text(a)) == Some(t1) && parse(Text(b)) == Some(t2) && parse(Text(c)) == None
    ensures var rows := ExampleRows(a, b, c);
      DropUnparsed(rows, 0, parse) == [Dated(rows[0], t1), Dated(rows[1], t2)]
  {
    var rows := ExampleRows(a, b, c);
    assert rows[1..] == [rows[1], rows[2]] && rows[1..][1..] == [rows[2]] && rows[1..][1..][1..] == [];
    assert CellAt(rows[2], 0) == Text(c);
    assert DropUnparsed([rows[2]], 0, parse) == [];
    assert DropUnparsed([rows[1], rows[2]], 0, parse) == [Dated(rows[1], t2)];
  }

  /** 120 and 60 seconds make 2 and 1 minutes. */
  lemma ExampleMinutes(a: string, b: string, t1: DateTime, t2: DateTime)
    ensures var rows := ExampleRows(a, b, []);
      AddMinutes([Dated(rows[0], t1), Dated(rows[1], t2)], 1) == Some(ExampleLog(a, b, t1, t2).flights)
  {
    var rows := ExampleRows(a, b, []);
    var dated := [Dated(rows[0], t1), Dated(rows[1], t2)];
    var fs := ExampleLog(a, b, t1, t2).flights;
    assert dated[1..] == [Dated(rows[1], t2)] && dated[1..][1..] == [];
    assert CellAt(rows[0], 1) == Num(120.0) && CellAt(rows[1], 1) == Num(60.0);
    assert AddMinutes([], 1) == Some([]);
    assert [fs[1]] + [] == [fs[1]];
    assert AddMinutes([Dated(rows[1], t2)], 1) == Some([fs[1]] + []);
    assert [fs[0]] + [fs[1]] == fs;
    assert AddMinutes(dated, 1) == Some([fs[0]] + [fs[1]]);
  }

  /** Loading the example rows gives the two flights of 2 and 1 minutes. */
  lemma ExampleLoads(a: string, b: string, c: string, parse: Cell -> Option<DateTime>, t1: DateTime, t2: DateTime)
    requires parse(Text(a)) == Some(t1) && parse(Text(b)) == Some(t2) && parse(Text(c)) == None
    ensures LoadRows(ExampleColumns, ExampleRows(a, b, c), parse) == Success(ExampleLog(a, b, t1, t2))
  {
    var rows := ExampleRows(a, b, c);
    ExampleColumnsFound();
    ExampleDropped(a, b, c, parse, t1, t2);
    ExampleMinutes(a, b, t1, t2);
    var early := ExampleRows(a, b, []);
    assert early[0] == rows[0] && early[1] == rows[1];
    assert DropUnparsed(rows, 0, parse) == [Dated(early[0], t1), Dated(early[1], t2)];
    assert AddMinutes(DropUnparsed(rows, 0, parse), 1) == Some(ExampleLog(a, b, t1, t2).flights);
  }

  /** The header as written in the file, with a space after each comma. */
  const ExampleHeader := [DateSourceColumn, [' '] + SecondsColumn, [' '] + AltitudeColumn]

  lemma DateColumnNormal()
    ensures NormaliseName(DateSourceColumn) == DateSourceColumn
  {
    assert '"' !in DateSourceColumn;
    NormalisedNameFixed(DateSourceColumn);
  }

  lemma SecondsColumnSpaced()
    ensures NormaliseName([' '] + SecondsColumn) == SecondsColumn
  {
    assert '"' !in SecondsColumn;
    ExposedSpaceKept(SecondsColumn);
  }

  lemma AltitudeColumnSpaced()
    ensures NormaliseName([' '] + AltitudeColumn) == AltitudeColumn
  {
    assert '"' !in AltitudeColumn;
    ExposedSpaceKept(AltitudeColumn);
  }

  lemma NormaliseTwo(x: string, y: string)
    ensures NormaliseHeader([x, y]) == [NormaliseName(x), NormaliseName(y)]
  {
    var h := NormaliseHeader([x, y]);
    assert h[0] == NormaliseName(x) && h[1] == NormaliseName(y);
  }

  lemma NormaliseThree(x: string, y: string, z: string)
    ensures NormaliseHeader([x, y, z]) == [NormaliseName(x), NormaliseName(y), NormaliseName(z)]
  {
    var hs := [x, y, z];
    var h := NormaliseHeader(hs);
    assert h[0] == NormaliseName(hs[0]);
    assert h[1] == NormaliseName(hs[1]);
    assert h[2] == NormaliseName(hs[2]);
  }

  /** Normalisation strips the spaces after the commas. */
  lemma ExampleHeaderNormalised()
    ensures NormaliseHeader(ExampleHeader) == ExampleColumns
  {
    DateColumnNormal();
    SecondsColumnSpaced();
    AltitudeColumnSpaced();
    NormaliseThree(DateSourceColumn, [' '] + SecondsColumn, [' '] + AltitudeColumn);
  }

  /** The whole load of the example file, header included. */
  lemma ExampleFileLoads(a: string, b: string, c: string, parse: Cell -> Option<DateTime>, t1: DateTime, t2: DateTime)
    requires parse(Text(a)) == Some(t1) && parse(Text(b)) == Some(t2) && parse(Text(c)) == None
    ensures Load(RawTable(ExampleHeader, ExampleRows(a, b, c)), parse) == Success(ExampleLog(a, b, t1, t2))
  {
    ExampleHeaderNormalised();
    ExampleLoads(a, b, c, parse, t1, t2);
  }

  /** Both flights fall on one day. */
  lemma ExampleDaily(a: string, b: string, t1: DateTime, t2: DateTime)
    requires t1.date == t2.date
    ensures DailyCounts(ExampleLog(a, b, t1, t2)) == [(t1.date, 2)]
  {
    var log := ExampleLog(a, b, t1, t2);
    var fs := log.flights;
    var d := t1.date;
    assert fs[..1] == [fs[0]] && [fs[0]][..0] == [];
    assert DailyKeys([fs[0]]) == [d];
    assert DailyKeys(fs) == [d];
    assert fs[1..] == [fs[1]] && fs[1..][1..] == [];
    assert Group(fs, DateOf, d) == [fs[0]] + [fs[1]];
  }

  /** 2 + 1 minutes make 0.05 hours. */
  lemma ExampleHours(a: string, b: string, t1: DateTime, t2: DateTime)
    ensures TotalHours(ExampleLog(a, b, t1, t2)) == 0.05
  {
    var fs := ExampleLog(a, b, t1, t2).flights;
    assert fs[1..] == [fs[1]] && fs[1..][1..] == [];
    assert [fs[1]][1..] == [] && MinutesOrZero(fs[1]) == 1.0;
    assert Weight([fs[1]], MinutesOrZero) == MinutesOrZero(fs[1]) + Weight([], MinutesOrZero);
    assert TotalMinutes([fs[1]]) == 1.0;
    assert Weight(fs, MinutesOrZero) == MinutesOrZero(fs[0]) + Weight([fs[1]], MinutesOrZero);
    assert TotalMinutes(fs) == 3.0;
  }

  /** The higher of 50 m and 30 m. */
  lemma ExampleAltitude(a: string, b: string, t1: DateTime, t2: DateTime)
    ensures MaxAltitude(ExampleLog(a, b, t1, t2)) == Success(50)
  {
    var log := ExampleLog(a, b, t1, t2);
    ExampleColumnsFound();
    var cells := AltitudeCells(log.flights, 2);
    assert cells == [Num(50.0), Num(30.0)];
    assert cells[1..] == [Num(30.0)] && cells[1..][1..] == [];
    assert Peak(cells) == Some(50.0);
    assert PeakAltitude(log) == Success(50.0);
  }

  /** The name in quotes, as a file may carry it beside the bare name. */
  function Quoted(name: string): string {
    ['"'] + (name + ['"'])
  }

  /** The header columns the two collision examples start from. */
  lemma BareAndQuoted(name: string)
    requires name in [DateSourceColumn, SecondsColumn, PilotColumn]
    ensures NormaliseName(name) == name && NormaliseName(Quoted(name)) == name
  {
    assert '"' !in name && !IsSpace(name[0]) && !IsSpace(name[|name| - 1]);
    QuotedNameCollides(name);
  }

  /** The pilot column bare and in quotes normalises to the pilot column twice. */
  lemma DuplicatePilotHeader()
    ensures NormaliseHeader([DateSourceColumn, SecondsColumn, PilotColumn, Quoted(PilotColumn)])
              == [DateSourceColumn, SecondsColumn, PilotColumn, PilotColumn]
  {
    BareAndQuoted(DateSourceColumn);
    BareAndQuoted(SecondsColumn);
    BareAndQuoted(PilotColumn);
    HeaderWithCollision(DateSourceColumn, SecondsColumn, PilotColumn, Quoted(PilotColumn));
  }

  /** Three names that are their own normal form, then one that normalises to the third. */
  lemma HeaderWithCollision(w: string, x: string, y: string, z: string)
    requires NormaliseName(w) == w && NormaliseName(x) == x
    requires NormaliseName(y) == y && NormaliseName(z) == y
    ensures NormaliseHeader([w, x, y, z]) == [w, x, y, y]
  {
    NormaliseTwo(w, x);
    NormaliseTwo(y, z);
    PairsJoin(w, x, y, z);
    NormaliseHeaderAppend([w, x], [y, z]);
    PairsJoin(w, x, y, y);
  }

  lemma PairsJoin<T>(w: T, x: T, y: T, z: T)
    ensures [w, x] + [y, z] == [w, x, y, z]
  {
  }

  lemma DuplicatePilotLookups()
    ensures var columns := [DateSourceColumn, SecondsColumn, PilotColumn, PilotColumn];
      && ColumnIndex(columns, DateSourceColumn) == Success(0)
      && ColumnIndex(columns, SecondsColumn) == Success(1)
      && Occurrences(columns, PilotColumn) == 2
  {
    var columns := [DateSourceColumn, SecondsColumn, PilotColumn, PilotColumn];
    assert |DateSourceColumn| == 26 && |SecondsColumn| == 18 && |PilotColumn| == 22;
    assert multiset(columns)[DateSourceColumn] == 1 && multiset(columns)[SecondsColumn] == 1;
    assert multiset(columns)[PilotColumn] == 2;
  }

  /**
    A file whose header carries the pilot column both bare and in quotes.
    `read_csv` sees two different names, but line 14 makes them equal: the
    file still loads, and the pilot breakdown then raises on the duplicate.
   */
  lemma ExampleDuplicatePilot(parse: Cell -> Option<DateTime>)
    ensures var columns := [DateSourceColumn, SecondsColumn, PilotColumn, PilotColumn];
      && Load(RawTable([DateSourceColumn, SecondsColumn, PilotColumn, Quoted(PilotColumn)], []), parse) == Success(FlightLog(columns, []))
      && PilotCounts(FlightLog(columns, [])) == Crashed(DuplicateColumn(PilotColumn))
  {
    DuplicatePilotHeader();
    DuplicatePilotRows(parse);
  }

  /** With no rows the duplicated pilot column loads, and its breakdown raises. */
  lemma DuplicatePilotRows(parse: Cell -> Option<DateTime>)
    ensures var columns := [DateSourceColumn, SecondsColumn, PilotColumn, PilotColumn];
      && LoadRows(columns, [], parse) == Success(FlightLog(columns, []))
      && PilotCounts(FlightLog(columns, [])) == Crashed(DuplicateColumn(PilotColumn))
  {
    DuplicatePilotLookups();
    assert DropUnparsed([], 0, parse) == [];
  }

  /** The seconds column bare and in quotes normalises to the seconds column twice. */
  lemma DuplicateSecondsHeader()
    ensures NormaliseHeader([DateSourceColumn, SecondsColumn, Quoted(SecondsColumn)])
              == [DateSourceColumn, SecondsColumn, SecondsColumn]
  {
    BareAndQuoted(DateSourceColumn);
    BareAndQuoted(SecondsColumn);
    NormaliseThree(DateSourceColumn, SecondsColumn, Quoted(SecondsColumn));
  }

  lemma DuplicateSecondsLookup()
    ensures ColumnIndex([DateSourceColumn, SecondsColumn, SecondsColumn], DateSourceColumn) == Success(0)
    ensures ColumnIndex([DateSourceColumn, SecondsColumn, SecondsColumn], SecondsColumn) == Failure(DuplicateColumn(SecondsColumn))
  {
    assert |DateSourceColumn| == 26 && |SecondsColumn| == 18;
    assert multiset([DateSourceColumn, SecondsColumn, SecondsColumn])[DateSourceColumn] == 1;
    assert multiset([DateSourceColumn, SecondsColumn, SecondsColumn])[SecondsColumn] == 2;
  }

  /** With the seconds column twice, text in a kept row's second copy is the error reported. */
  lemma DuplicateSecondsRows(a: string, t: DateTime, parse: Cell -> Option<DateTime>)
    requires parse(Text(a)) == Some(t)
    ensures LoadRows([DateSourceColumn, SecondsColumn, SecondsColumn], [[Text(a), Num(60.0), Text("n/a")]], parse)
              == Failure(DurationNotNumeric)
  {
    var columns := [DateSourceColumn, SecondsColumn, SecondsColumn];
    var row := [Text(a), Num(60.0), Text("n/a")];
    DuplicateSecondsLookup();
    DropUnparsedOne(row, 0, parse);
    var dated := DropUnparsed([row], 0, parse);
    assert dated == [Dated(row, t)];
    assert columns[2] == SecondsColumn && CellAt(dated[0].cells, 2).Text?;
    assert TextIn(dated, columns, SecondsColumn);
  }

  /**
    A file whose header carries the seconds column both bare and in quotes,
    with text in the second copy. Line 17 divides both copies before it
    assigns, so the text raises first: the error is the text, not the
    duplicate.
   */
  lemma ExampleDuplicateSeconds(a: string, t: DateTime, parse: Cell -> Option<DateTime>)
    requires parse(Text(a)) == Some(t)
    ensures Load(RawTable([DateSourceColumn, SecondsColumn, Quoted(SecondsColumn)], [[Text(a), Num(60.0), Text("n/a")]]), parse)
              == Failure(DurationNotNumeric)
  {
    DuplicateSecondsHeader();
    DuplicateSecondsRows(a, t, parse);
  }

  lemma DuplicateDateHeader()
    ensures NormaliseHeader([DateSourceColumn, Quoted(DateSourceColumn)]) == [DateSourceColumn, DateSourceColumn]
  {
    BareAndQuoted(DateSourceColumn);
    NormaliseTwo(DateSourceColumn, Quoted(DateSourceColumn));
  }

  lemma DuplicateDateLookup()
    ensures ColumnIndex([DateSourceColumn, DateSourceColumn], DateSourceColumn) == Failure(DuplicateColumn(DateSourceColumn))
  {
    assert multiset([DateSourceColumn, DateSourceColumn])[DateSourceColumn] == 2;
  }

  /** Two header names that normalise to the timestamp column stop the load at the first lookup. */
  lemma ExampleDuplicateDate(rows: seq<seq<Cell>>, parse: Cell -> Option<DateTime>)
    ensures Load(RawTable([DateSourceColumn, Quoted(DateSourceColumn)], rows), parse) == Failure(BadColumn(DuplicateColumn(DateSourceColumn)))
  {
    DuplicateDateHeader();
    DuplicateDateLookup();
  }
}
