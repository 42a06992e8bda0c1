/** `dynamic_data_filter`: cut the tracker spreadsheet down to the tracked
    countries and the recent weeks. */
module SourceFilter {
  import opened Calendar
  import opened Selection
  import opened Records

  /** The day number of 2021-10-01, the fixed lower bound on weeks
      (exclusive). */
  const Cutoff: Day := 738064

  /** Selecting `region`, `date`, `Tracker (yo2y)` and renaming them to
      `Country`, `Week`, `GDP_Change`. */
  function Rename(r: RawRow): Observation {
    Observation(r.region, r.date, r.tracker)
  }

  function Select(raw: seq<RawRow>): (s: seq<Observation>)
    ensures |s| == |raw|
  {
    seq(|raw|, i requires 0 <= i < |raw| => Rename(raw[i]))
  }

  predicate AfterCutoff(o: Observation) {
    o.week > Cutoff
  }

  predicate InRoster(o: Observation) {
    o.country in Countries
  }

  function InWeeks(weeks: seq<Day>): Observation -> bool {
    (o: Observation) => o.week in weeks
  }

  /** The three conditions a row must meet to be kept. */
  predicate Wanted(o: Observation, weeks: seq<Day>) {
    AfterCutoff(o) && InRoster(o) && o.week in weeks
  }

  function Keep(weeks: seq<Day>): Observation -> bool {
    (o: Observation) => Wanted(o, weeks)
  }

  /** The filter chain: select and rename, keep weeks after the cutoff, keep
      the tracked countries, keep the recent Sundays. */
  function Filter(raw: seq<RawRow>, today: Day, n: nat): (r: seq<Observation>)
    ensures |r| <= |raw|
    ensures forall k :: 0 <= k < |r| ==> r[k] in Select(raw) && Wanted(r[k], PastSundays(today, n))
  {
    var weeks := PastSundays(today, n);
    var recent := Where(Select(raw), AfterCutoff);
    var tracked := Where(recent, InRoster);
    var r := Where(tracked, InWeeks(weeks));
    assert forall k :: 0 <= k < |r| ==> r[k] in tracked && InWeeks(weeks)(r[k]);
    assert forall o :: o in tracked ==> o in recent && InRoster(o);
    assert forall o :: o in recent ==> o in Select(raw) && AfterCutoff(o);
    r
  }

  predicate RecentAndTracked(o: Observation) {
    AfterCutoff(o) && InRoster(o)
  }

  /** The chain of three filters is one filter by `Wanted`. */
  lemma FilterIsOneSelection(raw: seq<RawRow>, today: Day, n: nat)
    ensures Filter(raw, today, n) == Where(Select(raw), Keep(PastSundays(today, n)))
  {
    var weeks := PastSundays(today, n);
    WhereWhere(Select(raw), AfterCutoff, InRoster, RecentAndTracked);
    WhereWhere(Select(raw), RecentAndTracked, InWeeks(weeks), Keep(weeks));
  }

  /** The input positions the filter keeps. */
  ghost function Kept(raw: seq<RawRow>, today: Day, n: nat): seq<nat> {
    Positions(Select(raw), Keep(PastSundays(today, n)))
  }

  /** Every output row is an input row, renamed, taken in input order, and
      meets all three conditions; every input row that meets them is
      taken. */
  lemma FilterSelectsWanted(raw: seq<RawRow>, today: Day, n: nat)
    ensures |Filter(raw, today, n)| == |Kept(raw, today, n)|
    ensures forall k :: 0 <= k < |Kept(raw, today, n)| ==>
              Kept(raw, today, n)[k] < |raw| &&
              Filter(raw, today, n)[k] == Rename(raw[Kept(raw, today, n)[k]])
    ensures forall k, l :: 0 <= k < l < |Kept(raw, today, n)| ==>
              Kept(raw, today, n)[k] < Kept(raw, today, n)[l]
    ensures forall k :: 0 <= k < |Filter(raw, today, n)| ==>
              Filter(raw, today, n)[k].country in Countries &&
              Filter(raw, today, n)[k].week > Cutoff &&
              Filter(raw, today, n)[k].week in PastSundays(today, n)
    ensures forall i :: 0 <= i < |raw| && Wanted(Rename(raw[i]), PastSundays(today, n)) ==>
              i in Kept(raw, today, n)
  {
    var weeks := PastSundays(today, n);
    FilterIsOneSelection(raw, today, n);
    WhereIsSubsequence(Select(raw), Keep(weeks));
    assert forall i :: 0 <= i < |raw| ==> Keep(weeks)(Select(raw)[i]) == Wanted(Rename(raw[i]), weeks);
  }

  /** Every kept week is a Sunday at least eight days before today. */
  lemma FilteredWeeksAreSettledSundays(raw: seq<RawRow>, today: Day, n: nat)
    ensures forall k :: 0 <= k < |Filter(raw, today, n)| ==>
              IsSunday(Filter(raw, today, n)[k].week) &&
              Filter(raw, today, n)[k].week <= today - 8
  {
    FilterSelectsWanted(raw, today, n);
    forall k | 0 <= k < |Filter(raw, today, n)|
      ensures IsSunday(Filter(raw, today, n)[k].week) && Filter(raw, today, n)[k].week <= today - 8
    {
      PastSundaysExactly(today, n, Filter(raw, today, n)[k].week);
    }
  }

  /** `most_recent_week`: the latest week in a non-empty filtered table. */
  function MostRecentWeek(obs: seq<Observation>): (w: Day)
    requires |obs| > 0
    ensures exists k :: 0 <= k < |obs| && obs[k].week == w
    ensures forall k :: 0 <= k < |obs| ==> obs[k].week <= w
  {
    var ws := seq(|obs|, i requires 0 <= i < |obs| => obs[i].week);
    assert forall k :: 0 <= k < |obs| ==> ws[k] == obs[k].week;
    Latest(ws)
  }
}
