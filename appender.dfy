/** The incremental append: add to the persisted weekly table only the rows
    whose week is later than every week it already holds. */
module Appender {
  import opened Calendar
  import opened Selection
  import opened Records

  /** The `Week` column of a weekly table. */
  function TableWeeks(rows: seq<WeeklyRow>): (ws: seq<Day>)
    ensures |ws| == |rows|
  {
    seq(|rows|, i requires 0 <= i < |rows| => rows[i].week)
  }

  /** `most_recent_week_in_df`: the latest week of a non-empty table. */
  function LatestWeek(rows: seq<WeeklyRow>): (w: Day)
    requires |rows| > 0
    ensures exists k :: 0 <= k < |rows| && rows[k].week == w
    ensures forall k :: 0 <= k < |rows| ==> rows[k].week <= w
  {
    var ws := TableWeeks(rows);
    assert forall k :: 0 <= k < |rows| ==> ws[k] == rows[k].week;
    Latest(ws)
  }

  function NewerThan(latest: Day): WeeklyRow -> bool {
    (r: WeeklyRow) => r.week > latest
  }

  /** `df_update`: the estimated rows later than the table's latest week. */
  function Update(previous: seq<WeeklyRow>, rows: seq<WeeklyRow>): (u: seq<WeeklyRow>)
    requires |previous| > 0
    ensures |u| <= |rows|
    ensures forall k :: 0 <= k < |u| ==> u[k] in rows && u[k].week > LatestWeek(previous)
  {
    Where(rows, NewerThan(LatestWeek(previous)))
  }

  /** The persisted table after the append step. */
  function AppendStep(previous: seq<WeeklyRow>, rows: seq<WeeklyRow>): (t: seq<WeeklyRow>)
    requires |previous| > 0
    ensures |previous| <= |t| <= |previous| + |rows|
    ensures t[..|previous|] == previous
    ensures forall i :: |previous| <= i < |t| ==> t[i] in rows && t[i].week > LatestWeek(previous)
  {
    var update := Update(previous, rows);
    if |update| == 0 then previous else previous + update
  }

  /** The old table is an unchanged prefix of the new one; what follows it is
      exactly the newer rows, in order, each later than the old latest week. */
  lemma AppendKeepsHistory(previous: seq<WeeklyRow>, rows: seq<WeeklyRow>)
    requires |previous| > 0
    ensures |previous| <= |AppendStep(previous, rows)|
    ensures AppendStep(previous, rows)[..|previous|] == previous
    ensures AppendStep(previous, rows)[|previous|..] == Update(previous, rows)
    ensures forall i :: |previous| <= i < |AppendStep(previous, rows)| ==>
              AppendStep(previous, rows)[i].week > LatestWeek(previous)
  {
    var t := AppendStep(previous, rows);
    assert forall k :: 0 <= k < |Update(previous, rows)| ==> NewerThan(LatestWeek(previous))(Update(previous, rows)[k]);
    assert forall i :: |previous| <= i < |t| ==> t[i] == Update(previous, rows)[i - |previous|];
  }

  /** The table is left as it was iff no row is later than its latest week. */
  lemma {:induction false} AppendUnchangedIffNothingNewer(previous: seq<WeeklyRow>, rows: seq<WeeklyRow>)
    requires |previous| > 0
    ensures AppendStep(previous, rows) == previous <==>
              forall k :: 0 <= k < |rows| ==> rows[k].week <= LatestWeek(previous)
  {
    WhereEmpty(rows, NewerThan(LatestWeek(previous)));
    if |Update(previous, rows)| > 0 {
      assert |AppendStep(previous, rows)| > |previous|;
    }
  }

  /** After an append, no row of the same batch is later than the table's
      latest week. */
  lemma {:induction false} NothingNewerAfterAppend(previous: seq<WeeklyRow>, rows: seq<WeeklyRow>)
    requires |previous| > 0
    ensures forall k :: 0 <= k < |rows| ==> rows[k].week <= LatestWeek(AppendStep(previous, rows))
  {
    var old_latest := LatestWeek(previous);
    var t := AppendStep(previous, rows);
    var update := Update(previous, rows);
    AppendKeepsHistory(previous, rows);
    var j :| 0 <= j < |previous| && previous[j].week == old_latest;
    assert t[j] == previous[j];
    forall k | 0 <= k < |rows|
      ensures rows[k].week <= LatestWeek(t)
    {
      if rows[k].week > old_latest {
        WhereKeeps(rows, NewerThan(old_latest), k);
        var m :| 0 <= m < |update| && update[m] == rows[k];
        assert t[|previous| + m] == rows[k];
      }
    }
  }

  /** Running the append step again with the same rows changes nothing. */
  lemma AppendIdempotent(previous: seq<WeeklyRow>, rows: seq<WeeklyRow>)
    requires |previous| > 0
    ensures |AppendStep(previous, rows)| > 0
    ensures AppendStep(AppendStep(previous, rows), rows) == AppendStep(previous, rows)
  {
    var t := AppendStep(previous, rows);
    AppendKeepsHistory(previous, rows);
    NothingNewerAfterAppend(previous, rows);
    AppendUnchangedIffNothingNewer(t, rows);
  }

  /** When the batch holds one week later than the table and no other week
      beyond the table's, exactly that week's rows are appended, in order. */
  lemma AppendOneNewWeek(previous: seq<WeeklyRow>, rows: seq<WeeklyRow>, week: Day)
    requires |previous| > 0
    requires week > LatestWeek(previous)
    requires forall k :: 0 <= k < |rows| ==> rows[k].week == week || rows[k].week <= LatestWeek(previous)
    ensures AppendStep(previous, rows)[|previous|..] == Where(rows, (r: WeeklyRow) => r.week == week)
  {
    AppendKeepsHistory(previous, rows);
    WhereAgree(rows, NewerThan(LatestWeek(previous)), (r: WeeklyRow) => r.week == week);
  }
}
