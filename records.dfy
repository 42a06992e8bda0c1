/** The rows the weekly update job reads and writes. */
module Records {
  import opened Calendar

  /** One row of the weekly tracker spreadsheet, reduced to the three columns
      the job reads: `region`, `date` and `Tracker (yo2y)`. */
  datatype RawRow = RawRow(region: string, date: Day, tracker: real)

  /** A filtered row under its canonical column names `Country`, `Week`
      and `GDP_Change`. */
  datatype Observation = Observation(country: string, week: Day, gdpChange: real)

  /** The pair of columns `<gas>_weekly` and `<gas>_change` for one gas. */
  datatype GasEstimate = GasEstimate(weekly: real, change: real)

  /** A row of the weekly emission table: `Country`, `Week`, `GDP_Change`,
      then one `GasEstimate` per entry of `Gases`, in that order. */
  datatype WeeklyRow = WeeklyRow(country: string, week: Day, gdpChange: real, estimates: seq<GasEstimate>)

  /** `gh_gases`, in the order their columns are added. */
  const Gases: seq<string> := ["GHG", "CO2", "CH4", "N2O", "HFC", "PFC", "SF6"]

  /** `countries_list`: the seven countries the job tracks. */
  const Countries: seq<string> :=
    ["Canada", "France", "Germany", "Italy", "Japan", "United Kingdom", "United States"]
}
