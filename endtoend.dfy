/**
 * The two halves together: the body the submit handler sends, read by the
 * `/calculate` handler, and the chart series drawn from the reply.
 */
module EndToEnd {
  import opened Common
  import opened Appliances
  import opened Calculator
  import opened CalculatorProperties
  import Client

  /** How the server reads one record of the request body: every key present and every number converted. */
  function RecordItem(r: Client.ApplianceRecord): RawItem
  {
    Item(Some(r.name), Parsed(r.powerKw), Parsed(r.hoursPerDay), Parsed(r.efficiencyRatio), Parsed(r.count))
  }

  /** How the server reads the body `{ cost_per_kwh, appliances }` the client sends. */
  function ToRequest(p: Client.Payload): Request
  {
    Request(Parsed(p.costPerKwh), seq(|p.appliances|, k requires 0 <= k < |p.appliances| => RecordItem(p.appliances[k])))
  }

  /** The appliance the server builds from a record. */
  function RecordAppliance(r: Client.ApplianceRecord): Appliance
  {
    Appliance(r.name, r.powerKw, r.hoursPerDay, r.efficiencyRatio, r.count)
  }

  /** A record that passed the client's checks is admitted by the server unchanged. */
  lemma RecordAdmitted(r: Client.ApplianceRecord)
    requires Client.RecordInDomain(r)
    ensures ScreenItem(RecordItem(r)) == Accept(RecordAppliance(r))
    ensures RecordAppliance(r).InDomain()
  {
  }

  /**
   * A body whose records all passed the client's checks loses nothing on the
   * server: every record survives screening, in order.
   */
  lemma PayloadFullyAdmitted(p: Client.Payload)
    requires forall k :: 0 <= k < |p.appliances| ==> Client.RecordInDomain(p.appliances[k])
    ensures Screen(ToRequest(p).appliances).Some?
    ensures |Screen(ToRequest(p).appliances).value| == |p.appliances|
    ensures forall k :: 0 <= k < |p.appliances| ==> Screen(ToRequest(p).appliances).value[k] == RecordAppliance(p.appliances[k])
  {
    var items := ToRequest(p).appliances;
    forall k | 0 <= k < |items|
      ensures ScreenItem(items[k]) == Accept(RecordAppliance(p.appliances[k]))
    {
      RecordAdmitted(p.appliances[k]);
    }
    AllAdmittedKeepsOrder(items);
  }

  /**
   * The reply to the body the client sends after a successful submission:
   * with no rows the server answers "No valid appliances provided"; otherwise
   * it answers with one result per row, in row order, carrying the row's
   * trimmed name and count.
   */
  lemma SubmittedPayloadAnswered(rows: seq<Client.Row>, cost: Option<real>)
    requires Client.AllRowsValid(rows) && Client.CostAcceptable(cost)
    ensures Client.CheckAll(rows).Some?
    ensures var resp := CalculateSpec(ToRequest(Client.Payload(cost.value, Client.CheckAll(rows).value)));
      && (rows == [] <==> resp == Err(NoAppliancesMessage))
      && (rows != [] <==> resp.Ok?)
      && (resp.Ok? ==> |resp.results| == |rows|)
      && (resp.Ok? ==> forall k :: 0 <= k < |rows| ==>
            && resp.results[k].name == Client.Trim(rows[k].name)
            && resp.results[k].count == rows[k].count.value)
  {
    Client.CheckAllMeaning(rows);
    var p := Client.Payload(cost.value, Client.CheckAll(rows).value);
    forall k | 0 <= k < |p.appliances|
      ensures Client.RecordInDomain(p.appliances[k])
      ensures p.appliances[k].name == Client.Trim(rows[k].name) && p.appliances[k].count == rows[k].count.value
    {
      Client.CheckRowMeaning(rows[k]);
    }
    PayloadFullyAdmitted(p);
    var req := ToRequest(p);
    var apps := Screen(req.appliances).value;
    ResultsInOrder(apps);
  }

  /**
   * For every entry of a successful reply, the chart's ideal bar (daily
   * consumption less the gap) is the ideal consumption of the appliance it
   * was made from, and lies between zero and the current bar.
   */
  lemma ChartIdealIsIdealConsumption(req: Request)
    requires CalculateSpec(req).Ok?
    ensures Screen(req.appliances).Some?
    ensures forall k :: 0 <= k < |CalculateSpec(req).results| ==>
      var r := CalculateSpec(req).results[k];
      && k < |Screen(req.appliances).value|
      && r.dailyEnergyConsumption - r.gap == Screen(req.appliances).value[k].IdealEnergyConsumption()
      && 0.0 < r.dailyEnergyConsumption - r.gap <= r.dailyEnergyConsumption
  {
    OkResponseEntries(req);
    var apps := Screen(req.appliances).value;
    ScreenSurvivors(req.appliances);
    forall k | 0 <= k < |apps|
      ensures 0.0 < apps[k].IdealEnergyConsumption()
    {
      assert apps[k] in apps;
      AdmittedFigures(apps[k]);
    }
  }
}
