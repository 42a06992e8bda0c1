/** `estimate_weekly_emission` and the loop that fills the per-gas columns of
    the filtered table. Amounts are exact reals. */
module Estimator {
  import opened Records

  /** `df_estimate`, read-only: the value in row `country`, column `column`.
      For each gas the columns are `<gas>` (annual amount) and `<gas>_coef`
      (elasticity of emissions with respect to GDP). */
  type EstimateTable = map<(string, string), real>

  function CoefColumn(gas: string): string {
    gas + "_coef"
  }

  /** Both `.loc` lookups of the estimator succeed. */
  predicate HasEntry(table: EstimateTable, country: string, gas: string) {
    (country, gas) in table && (country, CoefColumn(gas)) in table
  }

  /** One week's share of an annual amount. */
  function WeeklyBaseline(amount: real): real {
    amount * 7.0 / 365.0
  }

  /** The weekly estimate and the percent change of emissions for one
      country, gas and percent GDP change. */
  function Estimate(table: EstimateTable, country: string, gas: string, change: real): (e: GasEstimate)
    requires HasEntry(table, country, gas)
    ensures e.change == change * table[(country, CoefColumn(gas))]
    ensures e.weekly == WeeklyBaseline(table[(country, gas)]) * (1.0 + e.change / 100.0)
  {
    var amount := table[(country, gas)];
    var amountWeek := amount * 7.0 / 365.0;
    var coef := table[(country, CoefColumn(gas))];
    var changeGh := change * coef;
    GasEstimate(amountWeek * (1.0 + changeGh / 100.0), changeGh)
  }

  /** No GDP change means the weekly baseline and no emission change. */
  lemma EstimateAtZeroChange(table: EstimateTable, country: string, gas: string)
    requires HasEntry(table, country, gas)
    ensures Estimate(table, country, gas, 0.0) == GasEstimate(table[(country, gas)] * 7.0 / 365.0, 0.0)
  {
  }

  /** The returned change is the percentage by which the weekly estimate
      departs from the weekly baseline. */
  lemma EstimateChangeIsPercentOfBaseline(table: EstimateTable, country: string, gas: string, change: real)
    requires HasEntry(table, country, gas)
    requires table[(country, gas)] != 0.0
    ensures var e := Estimate(table, country, gas, change);
            var base := WeeklyBaseline(table[(country, gas)]);
            (e.weekly - base) / base * 100.0 == e.change
  {
    var e := Estimate(table, country, gas, change);
    var base := WeeklyBaseline(table[(country, gas)]);
    assert base != 0.0;
    assert e.weekly - base == base * (e.change / 100.0);
  }

  /** With a non-negative annual amount and a non-negative elasticity, more GDP
      growth never lowers the estimate. */
  lemma EstimateMonotone(table: EstimateTable, country: string, gas: string, lo: real, hi: real)
    requires HasEntry(table, country, gas)
    requires table[(country, gas)] >= 0.0 && table[(country, CoefColumn(gas))] >= 0.0
    requires lo <= hi
    ensures Estimate(table, country, gas, lo).weekly <= Estimate(table, country, gas, hi).weekly
  {
    var coef := table[(country, CoefColumn(gas))];
    var base := WeeklyBaseline(table[(country, gas)]);
    var gap := hi * coef - lo * coef;
    assert gap == (hi - lo) * coef;
    assert gap >= 0.0;
    assert base >= 0.0;
    assert base * gap >= 0.0;
    assert Estimate(table, country, gas, hi).weekly - Estimate(table, country, gas, lo).weekly == base * gap / 100.0;
  }

  /** Every lookup the fill loop makes succeeds. */
  predicate Covered(table: EstimateTable, obs: seq<Observation>) {
    forall i, j :: 0 <= i < |obs| && 0 <= j < |Gases| ==> HasEntry(table, obs[i].country, Gases[j])
  }

  predicate CoveredCountry(table: EstimateTable, country: string) {
    forall j :: 0 <= j < |Gases| ==> HasEntry(table, country, Gases[j])
  }

  /** The row the fill loop produces from a filtered row. */
  function EstimatedRow(table: EstimateTable, o: Observation): (r: WeeklyRow)
    requires CoveredCountry(table, o.country)
    ensures r.country == o.country && r.week == o.week && r.gdpChange == o.gdpChange
    ensures |r.estimates| == |Gases|
    ensures forall j :: 0 <= j < |Gases| ==>
              r.estimates[j].change == o.gdpChange * table[(o.country, CoefColumn(Gases[j]))] &&
              r.estimates[j].weekly ==
                WeeklyBaseline(table[(o.country, Gases[j])]) * (1.0 + r.estimates[j].change / 100.0)
  {
    WeeklyRow(o.country, o.week, o.gdpChange,
              seq(|Gases|, j requires 0 <= j < |Gases| => Estimate(table, o.country, Gases[j], o.gdpChange)))
  }

  function EstimatedTable(table: EstimateTable, obs: seq<Observation>): (rows: seq<WeeklyRow>)
    requires Covered(table, obs)
    ensures |rows| == |obs|
    ensures forall i :: 0 <= i < |obs| ==>
              rows[i].country == obs[i].country && rows[i].week == obs[i].week &&
              rows[i].gdpChange == obs[i].gdpChange && |rows[i].estimates| == |Gases|
  {
    seq(|obs|, i requires 0 <= i < |obs| => EstimatedRow(table, obs[i]))
  }

  /** An estimated row keeps `Country`, `Week` and `GDP_Change`, and holds
      for every gas the estimator's output for its country and GDP change. */
  lemma EstimatedTableColumns(table: EstimateTable, obs: seq<Observation>, i: nat, j: nat)
    requires Covered(table, obs)
    requires i < |obs| && j < |Gases|
    ensures var r := EstimatedTable(table, obs)[i];
            |EstimatedTable(table, obs)| == |obs| &&
            r.country == obs[i].country && r.week == obs[i].week && r.gdpChange == obs[i].gdpChange &&
            |r.estimates| == |Gases| &&
            r.estimates[j].change == obs[i].gdpChange * table[(obs[i].country, CoefColumn(Gases[j]))] &&
            r.estimates[j].weekly ==
              WeeklyBaseline(table[(obs[i].country, Gases[j])]) * (1.0 + r.estimates[j].change / 100.0)
  {
    assert CoveredCountry(table, obs[i].country);
  }

  /** A filtered row with its first `k` gases' columns zero-initialised. */
  function ZeroedRow(o: Observation, k: nat): WeeklyRow
    requires k <= |Gases|
  {
    WeeklyRow(o.country, o.week, o.gdpChange, seq(k, j => GasEstimate(0.0, 0.0)))
  }

  /** A zero-initialised row whose first `k` gases are already estimated. */
  function PartlyEstimatedRow(table: EstimateTable, o: Observation, k: nat): WeeklyRow
    requires k <= |Gases| && CoveredCountry(table, o.country)
  {
    WeeklyRow(o.country, o.week, o.gdpChange,
              seq(|Gases|, j requires 0 <= j < |Gases| =>
                    if j < k then Estimate(table, o.country, Gases[j], o.gdpChange) else GasEstimate(0.0, 0.0)))
  }

  /** The fill loop: add the zero columns gas by gas, then overwrite them cell
      by cell, gas by gas and row by row. */
  method EstimateAll(table: EstimateTable, obs: seq<Observation>) returns (rows: seq<WeeklyRow>)
    requires Covered(table, obs)
    ensures rows == EstimatedTable(table, obs)
  {
    var a := new WeeklyRow[|obs|](i requires 0 <= i < |obs| => ZeroedRow(obs[i], 0));
    for k := 0 to |Gases|
      invariant forall i :: 0 <= i < a.Length ==> a[i] == ZeroedRow(obs[i], k)
    {
      forall i | 0 <= i < a.Length {
        a[i] := a[i].(estimates := a[i].estimates + [GasEstimate(0.0, 0.0)]);
      }
    }
    for k := 0 to |Gases|
      invariant forall i :: 0 <= i < a.Length ==>
                  CoveredCountry(table, obs[i].country) && a[i] == PartlyEstimatedRow(table, obs[i], k)
    {
      for i := 0 to a.Length
        invariant forall m :: 0 <= m < i ==>
                    CoveredCountry(table, obs[m].country) && a[m] == PartlyEstimatedRow(table, obs[m], k + 1)
        invariant forall m :: i <= m < a.Length ==>
                    CoveredCountry(table, obs[m].country) && a[m] == PartlyEstimatedRow(table, obs[m], k)
      {
        var e := Estimate(table, a[i].country, Gases[k], a[i].gdpChange);
        a[i] := a[i].(estimates := a[i].estimates[k := e]);
      }
    }
    forall i | 0 <= i < a.Length
      ensures a[i] == EstimatedRow(table, obs[i])
    {
      assert a[i].estimates == EstimatedRow(table, obs[i]).estimates;
    }
    rows := a[..];
  }
}
