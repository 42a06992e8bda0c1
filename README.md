# Weekly greenhouse-gas update job, modelled in Dafny

This project models the weekly update job of the GHGEmission repository
(`src/Dynamic_Update.py`). The job reads the OECD weekly GDP tracker and keeps
the rows for seven countries and the five most recent settled Sundays. It
archives one raw snapshot per most recent observed week. For every row and
each of seven gases it estimates weekly emissions from a precomputed table of
annual amounts and GDP elasticities. Finally it appends to the persisted
weekly table only the rows later than its latest week.

Modules, one per piece of the job:

- `Calendar` (`calendar.dfy`): dates are day ordinals as Python's
  `date.toordinal()` numbers them. `Weekday` is `date.weekday()`.
  `PastSundays` is `get_past_n_sundays`.
- `Selection` (`selection.dfy`): boolean-mask row selection (`Where`) and the
  latest value of a week column (`Latest`).
- `Records` (`records.dfy`): raw rows, filtered rows, weekly rows, the gas
  list and the country roster.
- `SourceFilter` (`source_filter.dfy`): `dynamic_data_filter` and
  `most_recent_week`.
- `Estimator` (`estimator.dfy`): `estimate_weekly_emission` over exact reals.
  `EstimateAll` is the column fill loop, run in place on an array of rows.
- `Snapshots` (`snapshots.dfy`): the write-once archive of raw snapshots.
- `Appender` (`appender.dfy`): the incremental append to the persisted table.
- `WeeklyUpdate` (`update_job.dfy`): one run of the job as a function `Job`
  on the files, and a class `Workspace` whose fields are those files and
  whose methods update them in place.

A `"%Y-%m-%d"` week label is identified with its day number. Such labels
compare lexicographically in date order (RFC 3339, sections 5.1 and 5.6), so
every string comparison in the job is a day-number comparison. The cutoff
`'2021-10-01'` is day 738064. An archive file name is `Snapshot(week)` for
`<week>.parquet`, or `Other(name)` for any other file.

The job's uncaught exceptions are the outcome `Aborted(reason)`, and the
files keep whatever had been written before the exception. There are three:
an empty filtered table (line 74 or 83), a missing `(country, gas)` entry
(lines 104 and 107), and an empty persisted table (line 138).

The code calls `dynamic_data_filter()` twice, at lines 80 and 116, and each
call reads the clock. Because the code filters twice, the model takes both clock
readings: `archiveDay` for the archive step and `estimateDay` for the
estimates.

## Model

| member | source | states |
|---|---|---|
| `Calendar.Weekday` | src/Dynamic_Update.py:45 | the weekday is in 0..6 and counts days since the Monday of its week (day ordinal 1 is a Monday) |
| `Calendar.PastSundays` | src/Dynamic_Update.py:38-55 | exactly `n` dates are returned, one per `i` in `range(n)` |
| `Calendar.PastSundayIsSunday` | src/Dynamic_Update.py:41-47 | `today - (1 + 7*(i+1) + weekday(today))` is a Sunday for every `today` and `i` |
| `Calendar.PastSundaysShape` | src/Dynamic_Update.py:41-49 | every returned date is a Sunday; consecutive dates are exactly 7 days apart and strictly decreasing; the first lies 8 to 14 days before today |
| `Calendar.PastSundaysExactly` | src/Dynamic_Update.py:41-53 | a date is returned iff it is a Sunday at least 8 days before today and no older than the n-th such Sunday, so the result is the `n` latest settled Sundays |
| `Calendar.PastSundaysWithinWeek` | src/Dynamic_Update.py:39-47 | any two days of the same Monday-to-Sunday week select the same Sundays |
| `Selection.Where` | src/Dynamic_Update.py:70-74 | a mask selection returns no more rows than it was given, and every row it returns satisfies the mask |
| `Selection.Positions` | src/Dynamic_Update.py:70-76 | the kept positions are ascending and in range, each satisfies the mask, and every position that satisfies it is listed |
| `Selection.WhereIsSubsequence` | src/Dynamic_Update.py:70-76 | the selected rows are exactly the input rows at the kept positions, in input order, so none is invented, reordered or dropped |
| `Selection.WhereKeeps` | src/Dynamic_Update.py:142 | an input row that satisfies the mask is among the selected rows |
| `Selection.WhereEmpty` | src/Dynamic_Update.py:142-146 | the selection is empty iff no input row satisfies the mask |
| `Selection.WhereWhere` | src/Dynamic_Update.py:70-74 | two masks applied in turn select the same rows as their conjunction |
| `Selection.Latest` | src/Dynamic_Update.py:138 | the first element of the descending sort is a week of the column and no week of the column is later |
| `SourceFilter.Select` | src/Dynamic_Update.py:65-68 | the projection and rename keep every raw row, one output row per input row |
| `SourceFilter.Filter` | src/Dynamic_Update.py:60-78 | the filtered table has at most as many rows as the feed, and every row is a renamed feed row whose country is in the roster, whose week is after 2021-10-01 and among the past Sundays (order and completeness in `FilterSelectsWanted`) |
| `SourceFilter.FilterIsOneSelection` | src/Dynamic_Update.py:65-76 | the three-stage filter chain equals a single selection by cutoff, roster and Sunday list together |
| `SourceFilter.FilterSelectsWanted` | src/Dynamic_Update.py:60-78 | every output row is a renamed input row, taken in input order; its country is in the seven-country roster, its week is after 2021-10-01 and in the Sunday list; every input row meeting all three is kept |
| `SourceFilter.FilteredWeeksAreSettledSundays` | src/Dynamic_Update.py:63-74 | every kept week is a Sunday at least eight days before the run date |
| `SourceFilter.MostRecentWeek` | src/Dynamic_Update.py:83 | `most_recent_week` is the week of some filtered row and no filtered row has a later week |
| `Estimator.Estimate` | src/Dynamic_Update.py:103-112 | the emission change is the GDP change times the gas's elasticity, and the weekly estimate is the weekly baseline (7/365 of the annual amount) raised by that percentage; it is defined only when both table entries exist |
| `Estimator.EstimateAtZeroChange` | src/Dynamic_Update.py:103-112 | zero GDP change gives `(amount*7/365, 0)` |
| `Estimator.EstimateChangeIsPercentOfBaseline` | src/Dynamic_Update.py:105-112 | for a non-zero annual amount, the returned change is the percentage by which the weekly estimate departs from the weekly baseline |
| `Estimator.EstimateMonotone` | src/Dynamic_Update.py:107-110 | with a non-negative annual amount and elasticity, a larger GDP change never gives a smaller weekly estimate |
| `Estimator.EstimatedRow` | src/Dynamic_Update.py:118-129 | a row keeps `Country`, `Week` and `GDP_Change` and has one estimate per gas: its change is the GDP change times the gas elasticity, its weekly value the weekly baseline raised by that percentage |
| `Estimator.EstimatedTable` | src/Dynamic_Update.py:114-129 | one estimated row per filtered row, in the same order, each keeping `Country`, `Week` and `GDP_Change` and holding all seven gases (per-cell values in `EstimatedTableColumns`) |
| `Estimator.EstimatedTableColumns` | src/Dynamic_Update.py:114-129 | each estimated row keeps `Country`, `Week` and `GDP_Change` and holds for every gas the estimator's output for its country and GDP change |
| `Estimator.EstimateAll` | src/Dynamic_Update.py:118-129 | the in-place fill (zero columns gas by gas, then every cell gas by gas and row by row) yields exactly the estimated table |
| `Snapshots.ArchiveStep` | src/Dynamic_Update.py:83-95 | afterwards the snapshot name is listed; nothing listed before changes, so no file is overwritten; nothing else is added; an absent snapshot receives the raw table |
| `Snapshots.ArchiveIdempotent` | src/Dynamic_Update.py:94-95 | a second archive step for the same week changes nothing |
| `Snapshots.ArchiveRuns` | src/Dynamic_Update.py:88-95 | over a sequence of runs, every file listed before is kept with its contents (listing in `ArchiveRunsListing`, first-write-wins in `ArchiveRunsWriteOnce`) |
| `Snapshots.ArchiveRunsListing` | src/Dynamic_Update.py:88-95 | after any sequence of runs the directory lists exactly the old files plus one snapshot name per run's week |
| `Snapshots.ArchiveRunsWriteOnce` | src/Dynamic_Update.py:88-95 | over any sequence of runs, each week's snapshot holds what its first run wrote (or what was already there), earlier files are untouched, and only the runs' snapshot names are added |
| `Appender.LatestWeek` | src/Dynamic_Update.py:138 | `most_recent_week_in_df` is the week of some persisted row and no persisted row is later |
| `Appender.Update` | src/Dynamic_Update.py:142 | `df_update` has at most as many rows as the estimated table, and each is one of its rows with a week later than the persisted table's latest week |
| `Appender.AppendStep` | src/Dynamic_Update.py:142-148 | the persisted table keeps its rows as a prefix and grows by at most the batch, only by batch rows later than its latest week (exact suffix in `AppendKeepsHistory`) |
| `Appender.AppendKeepsHistory` | src/Dynamic_Update.py:138-148 | the previous table is an unchanged prefix; the rest is exactly `df_update`, and every appended row's week is later than the old maximum |
| `Appender.AppendUnchangedIffNothingNewer` | src/Dynamic_Update.py:142-147 | the table is unchanged iff no new row is later than its latest week |
| `Appender.NothingNewerAfterAppend` | src/Dynamic_Update.py:138-148 | after the append no row of the same batch is later than the new latest week |
| `Appender.AppendIdempotent` | src/Dynamic_Update.py:134-148 | appending the same rows a second time leaves the table unchanged |
| `Appender.AppendOneNewWeek` | src/Dynamic_Update.py:142-147 | when one week later than the table is present, exactly that week's rows are appended, in order |
| `WeeklyUpdate.JobAppendsOnly` | src/Dynamic_Update.py:80-148 | a run keeps the persisted table as a prefix and every archived file as it was, and adds at most the snapshot named after the most recent observed week |
| `WeeklyUpdate.Job` | src/Dynamic_Update.py:80-148 | a run never removes an archived file, and once the first filter finds an observation the archive becomes the archive step for the most recent observed week (lines 83-95 run before any later abort); it aborts with no recent observation iff the first filter is empty, and then touches nothing; it aborts with a missing estimate iff some filtered country lacks a table entry, with an empty history iff the persisted table is empty (all else being met), and completes iff none of the three applies (files in `JobAppendsOnly`) |
| `WeeklyUpdate.JobArchives` | src/Dynamic_Update.py:80-95 | once the first filter finds an observation, the run, whatever its outcome, lists exactly one new name, the snapshot of the most recent observed week, and writes the raw table under it if the name was new |
| `WeeklyUpdate.JobCompletes` | src/Dynamic_Update.py:80-148 | a run with a recent observation, estimates for every filtered country and a non-empty persisted table completes, and what it appends is exactly `df_update` |
| `WeeklyUpdate.JobAbortKeepsTable` | src/Dynamic_Update.py:80-148 | a run that raises leaves the persisted table exactly as it was |
| `WeeklyUpdate.JobAppendsNewerSettledWeeks` | src/Dynamic_Update.py:116-148 | whatever the outcome, every appended row is later than every earlier row and its week is a Sunday at least eight days before the run |
| `WeeklyUpdate.JobIdempotentWithinWeek` | src/Dynamic_Update.py:80-148 | a second run in the same week on the same feed changes no file and ends with the same outcome: no duplicate rows and no second snapshot |
| `WeeklyUpdate.Workspace.ArchiveSnapshot` | src/Dynamic_Update.py:83-95 | the archive directory becomes `ArchiveStep` of the old one for the most recent observed week |
| `WeeklyUpdate.Workspace.AppendNew` | src/Dynamic_Update.py:138-148 | the persisted table becomes `AppendStep` of the old one |
| `WeeklyUpdate.Workspace.Run` | src/Dynamic_Update.py:80-148 | the files and the outcome after a run are those `Job` gives for the files before it |

## Left out

- Fetching the tracker spreadsheet over HTTP (lines 29-32) is left out. The raw rows are an argument.
- Parquet reads and writes and the directory scan (lines 88-95, 99, 134 and 148) are left out. The archive directory and the persisted table are fields of `Workspace`, and the estimate table is an argument.
- `datetime.now()` is left out. The two clock readings are arguments.
- The `print` calls are diagnostics only and are left out.
- `strftime` and the Gregorian calendar are not modelled. A week label is its day number, which is sound for the years 1000 to 9999, where `%Y` gives four digits so that label order is date order. Every week the job keeps lies after the 2021 cutoff.
- Python's date range is not modelled: ordinals run from 1 to 3652059, and a subtraction past that range raises `OverflowError`.
- A feed without a `region`, `date` or `Tracker (yo2y)` column makes line 65 raise `KeyError`, so the run aborts before any file is written. A `RawRow` always has those three fields, so the model cannot represent such a feed.
- Raw spreadsheet columns other than `region`, `date` and `Tracker (yo2y)` are not modelled, so an archived snapshot holds only those three.
- Missing values (NaN) in the tracker column are not modelled.
- IEEE floating point is not modelled. The estimator computes over exact reals.
- The column dtypes (integer zero columns later holding floats) are not modelled, and neither are the DataFrame index labels that `reset_index` and `ignore_index` renumber. Rows are identified by position.
- SourceFilter.Filter: returns an empty table where the source raises `KeyError` on an empty intermediate selection. If no feed row is later than 2021-10-01, the roster mask at line 73 is an empty non-boolean Series, selects no columns, and line 74 raises. If no such row is in the roster, line 83 raises `KeyError` rather than `IndexError`. Either way the run aborts before any file is written, which is `Aborted(NoRecentObservation)` with the files unchanged.
- `Aborted(MissingEstimate)` does not record which `(country, column)` key raised the `KeyError`.
- `app.py` is a page layout over the Dash framework and is not part of this model.
