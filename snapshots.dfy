/** The raw-snapshot archive: one copy of the tracker spreadsheet per most
    recent observed week, written once and never overwritten. */
module Snapshots {
  import opened Calendar
  import opened Records

  /** A name in the archive directory: `<week>.parquet`, identified by its
      week, or any other file. */
  datatype FileName = Snapshot(week: Day) | Other(name: string)

  /** The archive directory: each file with the raw table it holds; the
      directory listing is the key set. */
  type Directory = map<FileName, seq<RawRow>>

  /** Write the raw table under `<week>.parquet` unless that name is already
      listed. */
  function ArchiveStep(dir: Directory, week: Day, raw: seq<RawRow>): (d: Directory)
    ensures d.Keys == dir.Keys + {Snapshot(week)}
    ensures forall f :: f in dir ==> d[f] == dir[f]
    ensures Snapshot(week) !in dir ==> d[Snapshot(week)] == raw
  {
    if Snapshot(week) in dir then dir else dir[Snapshot(week) := raw]
  }

  /** A second archive step for the same week changes nothing. */
  lemma ArchiveIdempotent(dir: Directory, week: Day, first: seq<RawRow>, second: seq<RawRow>)
    ensures ArchiveStep(ArchiveStep(dir, week, first), week, second) == ArchiveStep(dir, week, first)
  {
  }

  /** One archive step per run: run `i` archives `raws[i]` under `weeks[i]`. */
  function ArchiveRuns(dir: Directory, weeks: seq<Day>, raws: seq<seq<RawRow>>): (d: Directory)
    requires |weeks| == |raws|
    ensures dir.Keys <= d.Keys
    ensures forall f :: f in dir ==> d[f] == dir[f]
  {
    if weeks == [] then dir
    else ArchiveStep(ArchiveRuns(dir, weeks[..|weeks| - 1], raws[..|raws| - 1]),
                     weeks[|weeks| - 1], raws[|raws| - 1])
  }

  /** After any number of runs the listing is the old listing plus the runs'
      snapshot names. */
  lemma {:induction false} ArchiveRunsListing(dir: Directory, weeks: seq<Day>, raws: seq<seq<RawRow>>)
    requires |weeks| == |raws|
    ensures ArchiveRuns(dir, weeks, raws).Keys == dir.Keys + set i | 0 <= i < |weeks| :: Snapshot(weeks[i])
  {
    if weeks != [] {
      var n := |weeks| - 1;
      ArchiveRunsListing(dir, weeks[..n], raws[..n]);
      assert (set i | 0 <= i < |weeks| :: Snapshot(weeks[i])) ==
             (set i | 0 <= i < n :: Snapshot(weeks[..n][i])) + {Snapshot(weeks[n])};
    }
  }

  /** However many runs there are, each week's snapshot is the one its first
      run wrote (or the file already there). For a single statement of the
      whole archive history this also repeats the listing of
      `ArchiveRunsListing` and the frame clause of `ArchiveRuns`: nothing
      listed before is changed, and nothing but the runs' snapshots is
      added. */
  lemma {:induction false} ArchiveRunsWriteOnce(dir: Directory, weeks: seq<Day>, raws: seq<seq<RawRow>>)
    requires |weeks| == |raws|
    ensures ArchiveRuns(dir, weeks, raws).Keys == dir.Keys + set i | 0 <= i < |weeks| :: Snapshot(weeks[i])
    ensures forall f :: f in dir ==> ArchiveRuns(dir, weeks, raws)[f] == dir[f]
    ensures forall i :: 0 <= i < |weeks| && Snapshot(weeks[i]) !in dir &&
                        (forall j :: 0 <= j < i ==> weeks[j] != weeks[i]) ==>
              ArchiveRuns(dir, weeks, raws)[Snapshot(weeks[i])] == raws[i]
  {
    ArchiveRunsListing(dir, weeks, raws);
    if weeks != [] {
      var n := |weeks| - 1;
      var before := ArchiveRuns(dir, weeks[..n], raws[..n]);
      var after := ArchiveRuns(dir, weeks, raws);
      assert after == ArchiveStep(before, weeks[n], raws[n]);
      ArchiveRunsWriteOnce(dir, weeks[..n], raws[..n]);
      forall i | 0 <= i < |weeks| && Snapshot(weeks[i]) !in dir &&
                 (forall j :: 0 <= j < i ==> weeks[j] != weeks[i])
        ensures after[Snapshot(weeks[i])] == raws[i]
      {
        if i < n {
          assert weeks[..n][i] == weeks[i] && raws[..n][i] == raws[i];
          assert before[Snapshot(weeks[i])] == raws[i];
        }
      }
    }
  }
}
