/**
  The three categorical breakdowns (app.py lines 79-81, 88-90 and 97-99):
  when the table has a column of the given name, the number of flights for
  each distinct value of that column, missing values not counted.
 */
module Categories {
  import opened Groups
  import opened Records

  /** The values column ci holds, flight by flight, missing ones skipped. */
  function Present(fs: seq<Flight>, ci: nat): (vs: seq<Cell>)
    ensures |vs| <= |fs|
    ensures forall v :: v in vs ==> v != Blank
    ensures forall j :: 0 <= j < |fs| && CellAt(fs[j].cells, ci) != Blank ==> CellAt(fs[j].cells, ci) in vs
    ensures forall v :: v in vs ==> exists j :: 0 <= j < |fs| && CellAt(fs[j].cells, ci) == v
  {
    if fs == [] then []
    else
      assert forall j :: 1 <= j < |fs| ==> fs[j] == fs[1..][j - 1];
      var c := CellAt(fs[0].cells, ci);
      (if c == Blank then [] else [c]) + Present(fs[1..], ci)
  }

  /** How many flights have nothing in column ci: exactly those Present skips. */
  function Blanks(fs: seq<Flight>, ci: nat): (n: nat)
    ensures n <= |fs|
    ensures n + |Present(fs, ci)| == |fs|
  {
    if fs == [] then 0
    else (if CellAt(fs[0].cells, ci) == Blank then 1 else 0) + Blanks(fs[1..], ci)
  }

  /**
    Keeping the flights whose value is one of ks, when ks holds exactly the
    values that are not missing, leaves out precisely the flights with a
    missing value.
   */
  lemma {:induction false} AmongPresent(fs: seq<Flight>, ci: nat, ks: seq<Cell>)
    requires forall j :: 0 <= j < |fs| ==> (CellAt(fs[j].cells, ci) in ks <==> CellAt(fs[j].cells, ci) != Blank)
    ensures |Among(fs, CellOf(ci), ks)| + Blanks(fs, ci) == |fs|
  {
    if fs != [] {
      assert forall j :: 1 <= j < |fs| ==> fs[j] == fs[1..][j - 1];
      AmongPresent(fs[1..], ci, ks);
      assert CellOf(ci)(fs[0]) == CellAt(fs[0].cells, ci);
    }
  }

  /** The distinct values of column ci, in order of first appearance: exactly the values present. */
  function PresentValues(fs: seq<Flight>, ci: nat): (ks: seq<Cell>)
    ensures NoDuplicates(ks)
    ensures forall c :: c in ks <==> c in Present(fs, ci)
  {
    var vs := Present(fs, ci);
    var ks := Distinct(vs);
    assert forall c :: c in ks <==> c in vs by {
      forall c ensures c in ks <==> c in vs {
        if c in ks {
          var i :| 0 <= i < |ks| && ks[i] == c;
        }
        if c in vs {
          var j :| 0 <= j < |vs| && vs[j] == c;
        }
      }
    }
    ks
  }

  /** Every present value has a group of at least one flight. */
  lemma PresentCounted(ks: seq<Cell>, fs: seq<Flight>, ci: nat)
    requires forall c :: c in ks ==> c in Present(fs, ci)
    ensures forall i :: 0 <= i < |ks| ==> Sizes(ks, fs, CellOf(ci))[i].1 >= 1
  {
    forall i | 0 <= i < |ks| ensures Sizes(ks, fs, CellOf(ci))[i].1 >= 1 {
      assert ks[i] in ks;
      var j :| 0 <= j < |fs| && CellAt(fs[j].cells, ci) == ks[i];
      assert fs[j] in Group(fs, CellOf(ci), ks[i]);
    }
  }

  /** Keys that are exactly the present values leave out exactly the flights with a missing value. */
  lemma PresentPartition(ks: seq<Cell>, fs: seq<Flight>, ci: nat)
    requires forall c :: c in ks <==> c in Present(fs, ci)
    ensures |Among(fs, CellOf(ci), ks)| + Blanks(fs, ci) == |fs|
  {
    assert forall j :: 0 <= j < |fs| ==> (CellAt(fs[j].cells, ci) in ks <==> CellAt(fs[j].cells, ci) != Blank);
    AmongPresent(fs, ci, ks);
  }

  /**
    `value_counts()` on column ci: one row per distinct value that occurs,
    none for a missing value. Values are compared exactly, so text differing
    only in letter case is counted apart. Each count is the number of flights
    carrying that value, at least one; with the flights lacking a value they
    make up all flights.
   */
  function ValueCounts(fs: seq<Flight>, ci: nat): (r: seq<(Cell, nat)>)
    ensures NoDuplicates(KeysOf(r))
    ensures forall c :: c in KeysOf(r) <==> c in Present(fs, ci)
    ensures forall i :: 0 <= i < |r| ==> r[i].1 == |Group(fs, CellOf(ci), r[i].0)| && r[i].1 >= 1
    ensures CountSum(r) + Blanks(fs, ci) == |fs|
  {
    var ks := PresentValues(fs, ci);
    var r := Sizes(ks, fs, CellOf(ci));
    SizesKeys(ks, fs, CellOf(ci));
    PresentCounted(ks, fs, ci);
    SizesPartition(ks, fs, CellOf(ci));
    PresentPartition(ks, fs, ci);
    r
  }

  /** What a breakdown section shows. */
  datatype Breakdown =
    | Hidden                           // the column is absent: the `if` skips the section
    | Shown(counts: seq<(Cell, nat)>)  // the value counts
    | Crashed(error: ColumnError)      // the name is carried by several columns: the section raises

  /**
    One guarded breakdown: skipped unless the column is present, and computed
    only then. A name carried by several columns passes the guard but yields a
    frame whose counts do not fit the two names assigned to them, which raises.
   */
  function CategoryCounts(log: FlightLog, name: string): (b: Breakdown)
    ensures b == Hidden <==> name !in log.columns
    ensures b == Crashed(DuplicateColumn(name)) <==> Occurrences(log.columns, name) > 1
    ensures b.Shown? <==> Occurrences(log.columns, name) == 1
    ensures b.Shown? ==> ColumnIndex(log.columns, name).Success? && b.counts == ValueCounts(log.flights, ColumnIndex(log.columns, name).value)
  {
    if name !in log.columns then Hidden
    else
      match ColumnIndex(log.columns, name)
      case Success(ci) => Shown(ValueCounts(log.flights, ci))
      case Failure(e) => Crashed(e)
  }

  /** Lines 79-81: flights per pilot. */
  function PilotCounts(log: FlightLog): (b: Breakdown)
    ensures b == Hidden <==> PilotColumn !in log.columns
    ensures b == Crashed(DuplicateColumn(PilotColumn)) <==> Occurrences(log.columns, PilotColumn) > 1
    ensures b.Shown? <==> Occurrences(log.columns, PilotColumn) == 1
    ensures b.Shown? ==> ColumnIndex(log.columns, PilotColumn).Success? && b.counts == ValueCounts(log.flights, ColumnIndex(log.columns, PilotColumn).value)
  {
    CategoryCounts(log, PilotColumn)
  }

  /** Lines 88-90: flights per project. */
  function ProjectCounts(log: FlightLog): (b: Breakdown)
    ensures b == Hidden <==> ProjectColumn !in log.columns
    ensures b == Crashed(DuplicateColumn(ProjectColumn)) <==> Occurrences(log.columns, ProjectColumn) > 1
    ensures b.Shown? <==> Occurrences(log.columns, ProjectColumn) == 1
    ensures b.Shown? ==> ColumnIndex(log.columns, ProjectColumn).Success? && b.counts == ValueCounts(log.flights, ColumnIndex(log.columns, ProjectColumn).value)
  {
    CategoryCounts(log, ProjectColumn)
  }

  /** Lines 97-99: flights per flight type. */
  function FlightTypeCounts(log: FlightLog): (b: Breakdown)
    ensures b == Hidden <==> FlightTypeColumn !in log.columns
    ensures b == Crashed(DuplicateColumn(FlightTypeColumn)) <==> Occurrences(log.columns, FlightTypeColumn) > 1
    ensures b.Shown? <==> Occurrences(log.columns, FlightTypeColumn) == 1
    ensures b.Shown? ==> ColumnIndex(log.columns, FlightTypeColumn).Success? && b.counts == ValueCounts(log.flights, ColumnIndex(log.columns, FlightTypeColumn).value)
  {
    CategoryCounts(log, FlightTypeColumn)
  }
}
