/** The weekly update job as a whole: filter the tracker feed, archive the raw
    snapshot for the most recent observed week, estimate emissions, append
    the newer rows to the persisted weekly table.

    The files the job touches are the state: the archive directory and the
    persisted weekly table. The job reads the clock twice (the filter runs
    once for the archive step and once more for the estimates), so each
    reading is an argument. An uncaught exception ends the run with the
    state as far as it got; here that is an `Aborted` outcome. */
module WeeklyUpdate {
  import opened Calendar
  import opened Selection
  import opened Records
  import opened SourceFilter
  import opened Estimator
  import opened Snapshots
  import opened Appender

  datatype Store = Store(archive: Directory, weekly: seq<WeeklyRow>)

  datatype Failure =
    | NoRecentObservation  // the filtered table is empty: no most recent week
    | MissingEstimate      // a (country, gas) lookup in the estimate table fails
    | EmptyHistory         // the persisted table is empty: no latest week

  datatype Outcome = Completed | Aborted(reason: Failure)

  /** One run of the job, from the files before to the files after. */
  function Job(s: Store, raw: seq<RawRow>, archiveDay: Day, estimateDay: Day, table: EstimateTable): (r: (Store, Outcome))
    ensures s.archive.Keys <= r.0.archive.Keys
    ensures r.1 == Aborted(NoRecentObservation) <==> |Filter(raw, archiveDay, PastWeekCount)| == 0
    ensures r.1 == Aborted(NoRecentObservation) ==> r.0 == s
    ensures |Filter(raw, archiveDay, PastWeekCount)| > 0 ==>
              r.0.archive == ArchiveStep(s.archive, MostRecentWeek(Filter(raw, archiveDay, PastWeekCount)), raw)
    ensures r.1 == Aborted(MissingEstimate) <==>
              |Filter(raw, archiveDay, PastWeekCount)| > 0 && !Covered(table, Filter(raw, estimateDay, PastWeekCount))
    ensures r.1 == Aborted(EmptyHistory) <==>
              |Filter(raw, archiveDay, PastWeekCount)| > 0 && Covered(table, Filter(raw, estimateDay, PastWeekCount)) &&
              |s.weekly| == 0
    ensures r.1 == Completed <==>
              |Filter(raw, archiveDay, PastWeekCount)| > 0 && Covered(table, Filter(raw, estimateDay, PastWeekCount)) &&
              |s.weekly| > 0
  {
    var observed := Filter(raw, archiveDay, PastWeekCount);
    if |observed| == 0 then (s, Aborted(NoRecentObservation))
    else
      var archive := ArchiveStep(s.archive, MostRecentWeek(observed), raw);
      var current := Filter(raw, estimateDay, PastWeekCount);
      if !Covered(table, current) then (Store(archive, s.weekly), Aborted(MissingEstimate))
      else if |s.weekly| == 0 then (Store(archive, s.weekly), Aborted(EmptyHistory))
      else (Store(archive, AppendStep(s.weekly, EstimatedTable(table, current))), Completed)
  }

  /** A run never rewrites history: the persisted table keeps its rows as a
      prefix, every archived file keeps its contents, and at most the one
      snapshot named after the most recent observed week is added. */
  lemma JobAppendsOnly(s: Store, raw: seq<RawRow>, archiveDay: Day, estimateDay: Day, table: EstimateTable)
    ensures var after := Job(s, raw, archiveDay, estimateDay, table).0;
            |s.weekly| <= |after.weekly| && after.weekly[..|s.weekly|] == s.weekly &&
            (forall f :: f in s.archive ==> f in after.archive && after.archive[f] == s.archive[f]) &&
            (forall f :: f in after.archive && f !in s.archive ==>
               |Filter(raw, archiveDay, PastWeekCount)| > 0 &&
               f == Snapshot(MostRecentWeek(Filter(raw, archiveDay, PastWeekCount))))
  {
    var observed := Filter(raw, archiveDay, PastWeekCount);
    if |observed| > 0 {
      var k :| 0 <= k < |observed| && observed[k].week == MostRecentWeek(observed);
      var current := Filter(raw, estimateDay, PastWeekCount);
      if Covered(table, current) && |s.weekly| > 0 {
        AppendKeepsHistory(s.weekly, EstimatedTable(table, current));
      }
    }
  }

  /** A run with a recent observation, estimates for every filtered country
      and a non-empty persisted table completes, and appends exactly the
      estimated rows later than the table's latest week. */
  lemma JobCompletes(s: Store, raw: seq<RawRow>, archiveDay: Day, estimateDay: Day, table: EstimateTable)
    requires |Filter(raw, archiveDay, PastWeekCount)| > 0
    requires Covered(table, Filter(raw, estimateDay, PastWeekCount))
    requires |s.weekly| > 0
    ensures Job(s, raw, archiveDay, estimateDay, table).1 == Completed
    ensures |s.weekly| <= |Job(s, raw, archiveDay, estimateDay, table).0.weekly|
    ensures Job(s, raw, archiveDay, estimateDay, table).0.weekly[|s.weekly|..] ==
              Update(s.weekly, EstimatedTable(table, Filter(raw, estimateDay, PastWeekCount)))
  {
    AppendKeepsHistory(s.weekly, EstimatedTable(table, Filter(raw, estimateDay, PastWeekCount)));
  }

  /** Once the first filter finds an observation, the run lists the snapshot
      named after the most recent observed week, writing the raw table under
      it when the name was new, whatever the outcome. */
  lemma JobArchives(s: Store, raw: seq<RawRow>, archiveDay: Day, estimateDay: Day, table: EstimateTable)
    requires |Filter(raw, archiveDay, PastWeekCount)| > 0
    ensures var name := Snapshot(MostRecentWeek(Filter(raw, archiveDay, PastWeekCount)));
            var after := Job(s, raw, archiveDay, estimateDay, table).0.archive;
            after.Keys == s.archive.Keys + {name} &&
            (name !in s.archive ==> after[name] == raw)
  {
  }

  /** A run that aborts leaves the persisted table exactly as it was: one
      failure cancels the whole append. */
  lemma JobAbortKeepsTable(s: Store, raw: seq<RawRow>, archiveDay: Day, estimateDay: Day, table: EstimateTable)
    ensures Job(s, raw, archiveDay, estimateDay, table).1 != Completed ==>
              Job(s, raw, archiveDay, estimateDay, table).0.weekly == s.weekly
  {
  }

  /** Every row a run appends is later than every row the table
      held and is a Sunday at least eight days before the second clock
      reading. */
  lemma JobAppendsNewerSettledWeeks(s: Store, raw: seq<RawRow>, archiveDay: Day, estimateDay: Day, table: EstimateTable)
    ensures var after := Job(s, raw, archiveDay, estimateDay, table).0;
            forall i, j :: 0 <= j < |s.weekly| <= i < |after.weekly| ==>
              s.weekly[j].week < after.weekly[i].week &&
              IsSunday(after.weekly[i].week) && after.weekly[i].week <= estimateDay - 8
  {
    if Job(s, raw, archiveDay, estimateDay, table).1 != Completed {
      JobAbortKeepsTable(s, raw, archiveDay, estimateDay, table);
      return;
    }
    var current := Filter(raw, estimateDay, PastWeekCount);
    var rows := EstimatedTable(table, current);
    var after := Job(s, raw, archiveDay, estimateDay, table).0;
    AppendKeepsHistory(s.weekly, rows);
    FilteredWeeksAreSettledSundays(raw, estimateDay, PastWeekCount);
    var update := Update(s.weekly, rows);
    WhereIsSubsequence(rows, NewerThan(LatestWeek(s.weekly)));
    forall i | |s.weekly| <= i < |after.weekly|
      ensures IsSunday(after.weekly[i].week) && after.weekly[i].week <= estimateDay - 8
    {
      var m := Positions(rows, NewerThan(LatestWeek(s.weekly)))[i - |s.weekly|];
      assert after.weekly[i] == rows[m];
      EstimatedTableColumns(table, current, m, 0);
    }
  }

  /** Running the job again in the same week, on the same feed and table,
      changes no file and ends the same way: no duplicate rows, no second
      snapshot. */
  lemma JobIdempotentWithinWeek(s: Store, raw: seq<RawRow>, archiveDay: Day, estimateDay: Day,
                                laterArchiveDay: Day, laterEstimateDay: Day, table: EstimateTable)
    requires WeekStart(archiveDay) == WeekStart(laterArchiveDay)
    requires WeekStart(estimateDay) == WeekStart(laterEstimateDay)
    ensures var (once, outcome) := Job(s, raw, archiveDay, estimateDay, table);
            Job(once, raw, laterArchiveDay, laterEstimateDay, table) == (once, outcome)
  {
    PastSundaysWithinWeek(archiveDay, laterArchiveDay, PastWeekCount);
    PastSundaysWithinWeek(estimateDay, laterEstimateDay, PastWeekCount);
    var observed := Filter(raw, archiveDay, PastWeekCount);
    var current := Filter(raw, estimateDay, PastWeekCount);
    if |observed| > 0 && Covered(table, current) && |s.weekly| > 0 {
      AppendIdempotent(s.weekly, EstimatedTable(table, current));
    }
  }

  /** The files the job works on: the archive directory and the persisted
      weekly table. The estimate table is read-only and passed in. */
  class Workspace {
    var archive: Directory
    var weekly: seq<WeeklyRow>

    constructor (archive: Directory, weekly: seq<WeeklyRow>)
      ensures this.archive == archive && this.weekly == weekly
    {
      this.archive := archive;
      this.weekly := weekly;
    }

    function State(): Store
      reads this
    {
      Store(archive, weekly)
    }

    /** Name the snapshot after the most recent observed week; write the raw
        table under it only if the listing lacks that name. */
    method ArchiveSnapshot(raw: seq<RawRow>, observed: seq<Observation>)
      requires |observed| > 0
      modifies this`archive
      ensures archive == ArchiveStep(old(archive), MostRecentWeek(observed), raw)
    {
      var name := Snapshot(MostRecentWeek(observed));
      var listing := archive.Keys;
      if name !in listing {
        archive := archive[name := raw];
      }
    }

    /** Append the rows later than the persisted table's latest week, and
        rewrite the table only if there are any. */
    method AppendNew(rows: seq<WeeklyRow>)
      requires |weekly| > 0
      modifies this`weekly
      ensures weekly == AppendStep(old(weekly), rows)
    {
      var latest := LatestWeek(weekly);
      var update := Where(rows, NewerThan(latest));
      if |update| > 0 {
        weekly := weekly + update;
      }
    }

    /** One run of the job against these files. */
    method Run(raw: seq<RawRow>, archiveDay: Day, estimateDay: Day, table: EstimateTable) returns (outcome: Outcome)
      modifies this
      ensures (State(), outcome) == Job(old(State()), raw, archiveDay, estimateDay, table)
    {
      var observed := Filter(raw, archiveDay, PastWeekCount);
      if |observed| == 0 {
        return Aborted(NoRecentObservation);
      }
      ArchiveSnapshot(raw, observed);
      var current := Filter(raw, estimateDay, PastWeekCount);
      if !Covered(table, current) {
        return Aborted(MissingEstimate);
      }
      var rows := EstimateAll(table, current);
      if |weekly| == 0 {
        return Aborted(EmptyHistory);
      }
      AppendNew(rows);
      outcome := Completed;
    }
  }
}
