/**
  The two per-day tables (app.py lines 56 and 63): the flights are grouped by
  the calendar date of their `Date`, in ascending date order and only for
  dates that have flights; one table gives each day's number of flights, the
  other each day's total minutes.
 */
module Daily {
  import opened Groups
  import opened Records
  import opened Metrics

  /** Dates strictly ascending, hence distinct: the key order of `groupby`. */
  predicate Ascending(ks: seq<Date>) {
    forall i, j :: 0 <= i < j < |ks| ==> Before(ks[i], ks[j])
  }

  lemma AscendingDistinct(ks: seq<Date>)
    requires Ascending(ks)
    ensures NoDuplicates(ks)
  {
  }

  /** d added to an ascending list of dates, at its place, unless it is there already. */
  function InsertDate(ks: seq<Date>, d: Date): (r: seq<Date>)
    requires Ascending(ks)
    ensures Ascending(r)
    ensures forall e :: e in r <==> e in ks || e == d
  {
    if ks == [] then [d]
    else if ks[0] == d then ks
    else if Before(d, ks[0]) then [d] + ks
    else
      assert Before(ks[0], d);
      var rest := InsertDate(ks[1..], d);
      assert forall e :: e in ks <==> e == ks[0] || e in ks[1..] by {
        assert ks == [ks[0]] + ks[1..];
      }
      assert forall j :: 0 <= j < |rest| ==> Before(ks[0], rest[j]) by {
        forall j | 0 <= j < |rest| ensures Before(ks[0], rest[j]) {
          if rest[j] != d {
            assert rest[j] in rest;
            var k :| 0 <= k < |ks[1..]| && ks[1..][k] == rest[j];
            assert ks[1..][k] == ks[k + 1];
          }
        }
      }
      [ks[0]] + rest
  }

  /** The date of every flight, in flight order. */
  function Dates(fs: seq<Flight>): (ds: seq<Date>)
    ensures |ds| == |fs|
    ensures forall j :: 0 <= j < |fs| ==> ds[j] == DateOf(fs[j])
  {
    seq(|fs|, j requires 0 <= j < |fs| => DateOf(fs[j]))
  }

  /** The group keys of lines 56 and 63: every date some flight has, once, in ascending order. */
  function DailyKeys(fs: seq<Flight>): (ks: seq<Date>)
    ensures Ascending(ks)
    ensures forall d :: d in ks <==> d in Dates(fs)
  {
    if fs == [] then []
    else
      var front := fs[..|fs| - 1];
      assert Dates(fs) == Dates(front) + [DateOf(fs[|fs| - 1])];
      InsertDate(DailyKeys(front), DateOf(fs[|fs| - 1]))
  }

  /** A date some flight has has a group of at least one flight. */
  lemma FlownDaysNonEmpty(ks: seq<Date>, fs: seq<Flight>)
    requires forall d :: d in ks ==> d in Dates(fs)
    ensures forall i :: 0 <= i < |ks| ==> Sizes(ks, fs, DateOf)[i].1 >= 1
  {
    forall i | 0 <= i < |ks| ensures Sizes(ks, fs, DateOf)[i].1 >= 1 {
      assert ks[i] in ks;
      var j :| 0 <= j < |fs| && Dates(fs)[j] == ks[i];
      assert fs[j] in Group(fs, DateOf, ks[i]);
    }
  }

  /**
    Line 56: flights per day. The days are exactly the dates flown, ascending;
    each day's count is the number of flights on it, at least one; and the
    counts add up to "Total Flights".
   */
  function DailyCounts(log: FlightLog): (r: seq<(Date, nat)>)
    ensures Ascending(KeysOf(r))
    ensures forall d :: d in KeysOf(r) <==> d in Dates(log.flights)
    ensures forall i :: 0 <= i < |r| ==> r[i].1 == |Group(log.flights, DateOf, r[i].0)| && r[i].1 >= 1
    ensures CountSum(r) == TotalFlights(log)
  {
    var ks := DailyKeys(log.flights);
    var r := Sizes(ks, log.flights, DateOf);
    SizesKeys(ks, log.flights, DateOf);
    AscendingDistinct(ks);
    SizesPartition(ks, log.flights, DateOf);
    FlownDaysNonEmpty(ks, log.flights);
    r
  }

  /**
    Line 63: minutes flown per day. Same days as line 56; each day's total is
    the sum of `Duration (minutes)` over that day's flights; and the totals add
    up to the overall sum, 60 times "Total Flight Hours".
   */
  function DailyDurations(log: FlightLog): (r: seq<(Date, real)>)
    ensures KeysOf(r) == KeysOf(DailyCounts(log))
    ensures forall i :: 0 <= i < |r| ==> r[i].1 == TotalMinutes(Group(log.flights, DateOf, r[i].0))
    ensures RealSum(r) == TotalMinutes(log.flights)
    ensures RealSum(r) == 60.0 * TotalHours(log)
  {
    var ks := DailyKeys(log.flights);
    var r := Totals(ks, log.flights, DateOf, MinutesOrZero);
    SizesKeys(ks, log.flights, DateOf);
    TotalsKeys(ks, log.flights, DateOf, MinutesOrZero);
    assert RealSum(r) == TotalMinutes(log.flights) by {
      AscendingDistinct(ks);
      TotalsPartition(ks, log.flights, DateOf, MinutesOrZero);
    }
    r
  }
}
