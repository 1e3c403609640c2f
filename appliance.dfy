/**
 * The `Appliance` record of the server (app.py): its four derived energy
 * figures, and what they are for an appliance whose fields are in the
 * domain the `/calculate` handler admits.
 */
module Appliances {

  /** Days in the year the annual figure is scaled by. */
  const DaysPerYear: real := 365.0

  /**
   * One appliance line: `count` identical devices of rated power `powerKw`,
   * running `hoursPerDay` hours a day, with an efficiency ratio in (0, 1].
   */
  datatype Appliance = Appliance(
    name: string,
    powerKw: real,
    hoursPerDay: real,
    efficiencyRatio: real,
    count: int)
  {
    /** The field domain the server admits: every numeric field positive and efficiency at most 1. */
    predicate InDomain() {
      powerKw > 0.0 && hoursPerDay > 0.0 && 0.0 < efficiencyRatio <= 1.0 && count > 0
    }

    /** kWh used per day by all `count` devices together. */
    function DailyEnergyConsumption(): real {
      powerKw * hoursPerDay * count as real
    }

    /** kWh used per year. */
    function AnnualEnergyConsumption(): real {
      DailyEnergyConsumption() * DaysPerYear
    }

    /** kWh per day the devices would use at their efficiency ratio. */
    function IdealEnergyConsumption(): real {
      DailyEnergyConsumption() * efficiencyRatio
    }

    /** kWh per day that are lost to inefficiency. */
    function EfficiencyGap(): real {
      DailyEnergyConsumption() - IdealEnergyConsumption()
    }
  }

  /** The gap is the inefficient share of the daily consumption, and the ideal and the gap add up to the daily figure. */
  lemma GapIsInefficientShare(a: Appliance)
    ensures a.EfficiencyGap() == a.DailyEnergyConsumption() * (1.0 - a.efficiencyRatio)
    ensures a.IdealEnergyConsumption() + a.EfficiencyGap() == a.DailyEnergyConsumption()
  {
  }

  /**
   * For an admitted appliance the daily figure is positive, the annual one
   * larger, the ideal one positive and at most the daily one, and the gap
   * non-negative and below the daily one; the gap is zero, and the ideal
   * figure equals the daily one, exactly when the efficiency is 1.
   */
  lemma AdmittedFigures(a: Appliance)
    requires a.InDomain()
    ensures a.DailyEnergyConsumption() > 0.0
    ensures a.AnnualEnergyConsumption() > a.DailyEnergyConsumption()
    ensures 0.0 < a.IdealEnergyConsumption() <= a.DailyEnergyConsumption()
    ensures 0.0 <= a.EfficiencyGap() < a.DailyEnergyConsumption()
    ensures a.EfficiencyGap() == 0.0 <==> a.efficiencyRatio == 1.0
    ensures a.IdealEnergyConsumption() == a.DailyEnergyConsumption() <==> a.efficiencyRatio == 1.0
  {
    var daily, e := a.DailyEnergyConsumption(), a.efficiencyRatio;
    assert a.powerKw * a.hoursPerDay > 0.0;
    assert daily > 0.0;
    assert daily * (1.0 - e) >= 0.0;
    assert daily - daily * e == daily * (1.0 - e);
    assert daily * e > 0.0;
    assert daily * e == daily <==> e == 1.0 by {
      assert daily * e - daily == daily * (e - 1.0);
    }
  }
}
