/**
  The key metrics (app.py lines 43-49): number of flights, total flight hours,
  mean flight duration and the maximum altitude, before display rounding.
 */
module Metrics {
  import opened Wrappers
  import opened Groups
  import opened Records

  /** Line 43: "Total Flights", the number of rows of the loaded table. */
  function TotalFlights(log: FlightLog): (n: nat)
    ensures n == |log.flights|
  {
    |log.flights|
  }

  /** A flight's minutes as pandas' `sum` sees them: NaN adds nothing. */
  function MinutesOrZero(f: Flight): real {
    if f.minutes.Some? then f.minutes.value else 0.0
  }

  /** The sum of `Duration (minutes)` over some flights. */
  function TotalMinutes(fs: seq<Flight>): (t: real)
    ensures (forall j :: 0 <= j < |fs| ==> fs[j].minutes.None?) ==> t == 0.0
    ensures (forall j :: 0 <= j < |fs| && fs[j].minutes.Some? ==> fs[j].minutes.value >= 0.0) ==> t >= 0.0
  {
    MinutesSumBounds(fs);
    Weight(fs, MinutesOrZero)
  }

  /** A sum that skips missing values is 0 over missing values only, and never negative over non-negative ones. */
  lemma {:induction false} MinutesSumBounds(fs: seq<Flight>)
    ensures (forall j :: 0 <= j < |fs| ==> fs[j].minutes.None?) ==> Weight(fs, MinutesOrZero) == 0.0
    ensures (forall j :: 0 <= j < |fs| && fs[j].minutes.Some? ==> fs[j].minutes.value >= 0.0) ==> Weight(fs, MinutesOrZero) >= 0.0
  {
    if fs != [] {
      assert forall j :: 1 <= j < |fs| ==> fs[j] == fs[1..][j - 1];
      MinutesSumBounds(fs[1..]);
    }
  }

  /** Line 45 before rounding: "Total Flight Hours", the minutes' sum over 60. */
  function TotalHours(log: FlightLog): (h: real)
    ensures h * 60.0 == TotalMinutes(log.flights)
  {
    TotalMinutes(log.flights) / 60.0
  }

  /** How many flights have a defined duration. */
  function Timed(fs: seq<Flight>): (n: nat)
    ensures n <= |fs|
    ensures n == 0 <==> forall j :: 0 <= j < |fs| ==> fs[j].minutes.None?
  {
    if fs == [] then 0
    else
      assert forall j :: 1 <= j < |fs| ==> fs[j] == fs[1..][j - 1];
      (if fs[0].minutes.Some? then 1 else 0) + Timed(fs[1..])
  }

  /** Counting works flight by flight: the timed flights of two parts add up. */
  lemma {:induction false} TimedAppend(a: seq<Flight>, b: seq<Flight>)
    ensures Timed(a + b) == Timed(a) + Timed(b)
  {
    if a == [] {
      assert a + b == b;
    } else {
      assert (a + b)[0] == a[0] && (a + b)[1..] == a[1..] + b;
      TimedAppend(a[1..], b);
    }
  }

  /** A single flight is counted iff it has a duration. */
  lemma TimedOne(f: Flight)
    ensures Timed([f]) == if f.minutes.Some? then 1 else 0
  {
    assert [f][1..] == [];
  }

  /**
    Line 47 before rounding: "Avg. Flight Duration (min)". pandas' `mean`
    skips NaN, and is NaN itself (None here) when no flight has a duration.
   */
  function MeanMinutes(log: FlightLog): (m: Option<real>)
    ensures m.None? <==> forall j :: 0 <= j < |log.flights| ==> log.flights[j].minutes.None?
    ensures m.Some? ==> m.value * (Timed(log.flights) as real) == TotalMinutes(log.flights)
    ensures m.Some? && (forall j :: 0 <= j < |log.flights| && log.flights[j].minutes.Some? ==> log.flights[j].minutes.value >= 0.0) ==> m.value >= 0.0
  {
    var n := Timed(log.flights);
    if n == 0 then None
    else
      var t := TotalMinutes(log.flights);
      Quotient(t, n as real);
      Some(t / n as real)
  }

  /** Dividing by a positive count can be undone, and keeps the sign. */
  lemma Quotient(t: real, n: real)
    requires n > 0.0
    ensures (t / n) * n == t
    ensures t >= 0.0 ==> t / n >= 0.0
  {
  }

  /** Python's `int(x)` on a float: truncation toward zero. */
  function Truncate(x: real): (n: int)
    ensures 0.0 <= x ==> 0 <= n && n as real <= x < n as real + 1.0
    ensures x < 0.0 ==> n <= 0 && n as real - 1.0 < x <= n as real
  {
    if 0.0 <= x then x.Floor else -((-x).Floor)
  }

  /** Truncation keeps order, so the truncated maximum is the maximum of the truncations. */
  lemma TruncateMonotone(a: real, b: real)
    requires a <= b
    ensures Truncate(a) <= Truncate(b)
  {
  }

  /** The largest number among some cells, skipping missing ones as pandas' `max` does; None when there is none. */
  function Peak(cells: seq<Cell>): (m: Option<real>)
    ensures m.None? <==> forall i :: 0 <= i < |cells| ==> !cells[i].Num?
    ensures m.Some? ==> Num(m.value) in cells
    ensures m.Some? ==> forall i :: 0 <= i < |cells| && cells[i].Num? ==> cells[i].x <= m.value
  {
    if cells == [] then None
    else
      assert forall i :: 1 <= i < |cells| ==> cells[i] == cells[1..][i - 1];
      match (cells[0], Peak(cells[1..]))
      case (Num(x), Some(y)) => Some(if x < y then y else x)
      case (Num(x), None) => Some(x)
      case (_, rest) => rest
  }

  /** Why line 49 raises instead of showing a maximum altitude. */
  datatype AltitudeError =
    | AltitudeColumnError(error: ColumnError)  // no single `Max Altitude ( m)` column
    | NoAltitude                               // no flight has an altitude: `int(nan)` raises
    | AltitudeNotNumeric                       // a flight's altitude is text

  /** The altitude column, flight by flight. */
  function AltitudeCells(fs: seq<Flight>, ai: nat): (cells: seq<Cell>)
    ensures |cells| == |fs|
    ensures forall j :: 0 <= j < |fs| ==> cells[j] == CellAt(fs[j].cells, ai)
  {
    seq(|fs|, j requires 0 <= j < |fs| => CellAt(fs[j].cells, ai))
  }

  /** `df['Max Altitude ( m)'].max()` on line 49, or why it cannot be shown. */
  function PeakAltitude(log: FlightLog): (r: Result<real, AltitudeError>)
    ensures ColumnIndex(log.columns, AltitudeColumn).Failure? ==>
              r == Failure(AltitudeColumnError(ColumnIndex(log.columns, AltitudeColumn).error))
    ensures ColumnIndex(log.columns, AltitudeColumn).Success? ==>
              var cells := AltitudeCells(log.flights, ColumnIndex(log.columns, AltitudeColumn).value);
              && (r == Failure(AltitudeNotNumeric) <==> exists j :: 0 <= j < |cells| && cells[j].Text?)
              && (r == Failure(NoAltitude) <==> forall j :: 0 <= j < |cells| ==> cells[j] == Blank)
              && (r.Success? <==> (forall j :: 0 <= j < |cells| ==> !cells[j].Text?) && exists j :: 0 <= j < |cells| && cells[j].Num?)
              && (r.Success? ==> Num(r.value) in cells)
              && (r.Success? ==> forall j :: 0 <= j < |cells| && cells[j].Num? ==> cells[j].x <= r.value)
  {
    match ColumnIndex(log.columns, AltitudeColumn)
    case Failure(e) => Failure(AltitudeColumnError(e))
    case Success(ai) =>
      var cells := AltitudeCells(log.flights, ai);
      if exists j :: 0 <= j < |cells| && cells[j].Text? then Failure(AltitudeNotNumeric)
      else
        match Peak(cells)
        case None => Failure(NoAltitude)
        case Some(m) => Success(m)
  }

  /**
    Line 49: "Max Altitude (m)", `int()` of the maximum. It is the truncation
    of some flight's altitude, and no flight's truncated altitude exceeds it.
   */
  function MaxAltitude(log: FlightLog): (r: Result<int, AltitudeError>)
    ensures r.Failure? <==> PeakAltitude(log).Failure?
    ensures r.Success? ==>
              var cells := AltitudeCells(log.flights, ColumnIndex(log.columns, AltitudeColumn).value);
              && (exists j :: 0 <= j < |cells| && cells[j].Num? && Truncate(cells[j].x) == r.value)
              && (forall j :: 0 <= j < |cells| && cells[j].Num? ==> Truncate(cells[j].x) <= r.value)
  {
    match PeakAltitude(log)
    case Failure(e) => Failure(e)
    case Success(m) =>
      var cells := AltitudeCells(log.flights, ColumnIndex(log.columns, AltitudeColumn).value);
      assert forall j :: 0 <= j < |cells| && cells[j].Num? ==> Truncate(cells[j].x) <= Truncate(m) by {
        forall j | 0 <= j < |cells| && cells[j].Num? ensures Truncate(cells[j].x) <= Truncate(m) {
          TruncateMonotone(cells[j].x, m);
        }
      }
      assert exists j :: 0 <= j < |cells| && cells[j] == Num(m);
      Success(Truncate(m))
  }
}
