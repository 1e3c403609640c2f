/**
 * The `/calculate` handler of the server (app.py:29-81): read the cost,
 * screen each submitted appliance (skip the ones out of domain or
 * unparsable), fail when none survives, and otherwise emit one result per
 * surviving appliance in input order, together with two running totals.
 *
 * The HTTP layer is abstracted away: the JSON body arrives as a `Request`
 * whose fields are already converted by `float()` / `int()`, and the reply
 * is a `Response`.
 */
module Calculator {
  import opened Common
  import opened Appliances

  /** One field of the JSON body after `float()` or `int()`: key missing, converted, or rejected by the conversion. */
  datatype RawField<+T> = Absent | Parsed(value: T) | Unparsable

  /** One element of the `appliances` list. Anything that is not a JSON object is `NotAnObject`. */
  datatype RawItem =
    | NotAnObject
    | Item(name: Option<string>, powerKw: RawField<real>, hoursPerDay: RawField<real>,
           efficiencyRatio: RawField<real>, count: RawField<int>)

  /** The JSON body; a missing `appliances` key is the empty list. */
  datatype Request = Request(costPerKwh: RawField<real>, appliances: seq<RawItem>)

  datatype Recommendation = ConsiderReplacing | Efficient

  /** One entry of the `results` list of a successful reply. */
  datatype ApplianceResult = ApplianceResult(
    name: string,
    count: int,
    dailyEnergyConsumption: real,
    annualEnergyConsumption: real,
    gap: real,
    gapPercentage: real,
    recommendation: Recommendation)

  /**
   * The reply: the results with their totals, a handled error (HTTP 400), or an
   * exception the handler does not catch (HTTP 500).
   */
  datatype Response =
    | Ok(results: seq<ApplianceResult>, totalEnergy: real, totalSavings: real)
    | Err(message: string)
    | InternalError

  const DefaultCostPerKwh: real := 0.12
  const ReplaceThresholdPercent: real := 20.0
  const InvalidCostMessage: string := "Invalid electricity cost"
  const NoAppliancesMessage: string := "No valid appliances provided"

  /** What the handler's `try` block makes of one item. */
  datatype Screening = Accept(appliance: Appliance) | Skip | Abort

  /**
   * The `try` block for one item. The fields are read in order; a missing
   * numeric key raises `KeyError`, which the `except` clause does not catch,
   * and so does a missing `name`, read only once the fields passed the
   * domain check. A failed conversion or a non-object item is skipped.
   */
  function ScreenItem(item: RawItem): (s: Screening)
    ensures s.Accept? ==> s.appliance.InDomain()
  {
    if item.NotAnObject? then Skip
    else if item.powerKw.Absent? then Abort
    else if item.powerKw.Unparsable? then Skip
    else if item.hoursPerDay.Absent? then Abort
    else if item.hoursPerDay.Unparsable? then Skip
    else if item.efficiencyRatio.Absent? then Abort
    else if item.efficiencyRatio.Unparsable? then Skip
    else if item.count.Unparsable? then Skip
    else
      var count := if item.count.Absent? then 1 else item.count.value;
      var power, hours, efficiency := item.powerKw.value, item.hoursPerDay.value, item.efficiencyRatio.value;
      if power <= 0.0 || hours <= 0.0 || efficiency <= 0.0 || efficiency > 1.0 || count <= 0 then Skip
      else if item.name.None? then Abort
      else Accept(Appliance(item.name.value, power, hours, efficiency, count))
  }

  /**
   * The first loop of the handler: the appliances that survive screening,
   * in input order, or `None` when some item raises an uncaught exception.
   */
  function Screen(items: seq<RawItem>): Option<seq<Appliance>>
  {
    if items == [] then Some([])
    else
      match Screen(items[..|items| - 1])
      case None => None
      case Some(apps) =>
        match ScreenItem(items[|items| - 1])
        case Abort => None
        case Skip => Some(apps)
        case Accept(a) => Some(apps + [a])
  }

  /** The entry the second loop appends for one surviving appliance. */
  function ResultFor(a: Appliance): ApplianceResult
  {
    var daily := a.DailyEnergyConsumption();
    var gap := a.EfficiencyGap();
    var gapPercentage := if daily > 0.0 then gap / daily * 100.0 else 0.0;
    ApplianceResult(a.name, a.count, daily, a.AnnualEnergyConsumption(), gap, gapPercentage,
                    if gapPercentage >= ReplaceThresholdPercent then ConsiderReplacing else Efficient)
  }

  /** For an admitted appliance the percentage is the inefficient share, so the `else 0` branch is never taken. */
  lemma GapPercentageIsInefficiency(a: Appliance)
    requires a.InDomain()
    ensures a.DailyEnergyConsumption() > 0.0
    ensures a.EfficiencyGap() / a.DailyEnergyConsumption() * 100.0 == (1.0 - a.efficiencyRatio) * 100.0
  {
    var daily, share := a.DailyEnergyConsumption(), 1.0 - a.efficiencyRatio;
    AdmittedFigures(a);
    GapIsInefficientShare(a);
    var q := a.EfficiencyGap() / daily;
    assert q * daily == share * daily;
    assert (q - share) * daily == 0.0;
  }

  /** The `results` list: one entry per appliance, in the same order. */
  function Results(apps: seq<Appliance>): seq<ApplianceResult>
  {
    if apps == [] then [] else Results(apps[..|apps| - 1]) + [ResultFor(apps[|apps| - 1])]
  }

  /** The request fails with an uncaught exception exactly when some item raises one. */
  lemma {:induction false} ScreenAbortsExactly(items: seq<RawItem>)
    ensures Screen(items).None? <==> exists k :: 0 <= k < |items| && ScreenItem(items[k]).Abort?
    decreases |items|
  {
    if items != [] {
      var prefix := items[..|items| - 1];
      ScreenAbortsExactly(prefix);
      assert forall k :: 0 <= k < |prefix| ==> prefix[k] == items[k];
      if ScreenItem(items[|items| - 1]).Abort? {
        assert 0 <= |items| - 1 < |items| && ScreenItem(items[|items| - 1]).Abort?;
      }
    }
  }

  /** The survivors are at most as many as the items, and every one of them is in the admitted domain. */
  lemma {:induction false} ScreenSurvivors(items: seq<RawItem>)
    requires Screen(items).Some?
    ensures |Screen(items).value| <= |items|
    ensures forall a :: a in Screen(items).value ==> a.InDomain()
    decreases |items|
  {
    if items != [] {
      ScreenSurvivors(items[..|items| - 1]);
    }
  }

  /** The `results` list has one entry per appliance, made from it, in the same order. */
  lemma {:induction false} ResultsInOrder(apps: seq<Appliance>)
    ensures |Results(apps)| == |apps|
    ensures forall k :: 0 <= k < |apps| ==> Results(apps)[k] == ResultFor(apps[k])
    decreases |apps|
  {
    if apps != [] {
      ResultsInOrder(apps[..|apps| - 1]);
    }
  }

  /** `total_energy`: the sum of the daily consumptions. */
  function TotalEnergy(apps: seq<Appliance>): real
  {
    if apps == [] then 0.0
    else TotalEnergy(apps[..|apps| - 1]) + apps[|apps| - 1].DailyEnergyConsumption()
  }

  /** `total_savings`: the sum over the appliances of a year of gap, priced at `cost`. */
  function TotalSavings(apps: seq<Appliance>, cost: real): real
  {
    if apps == [] then 0.0
    else TotalSavings(apps[..|apps| - 1], cost) + apps[|apps| - 1].EfficiencyGap() * DaysPerYear * cost
  }

  /** The cost per kWh the handler works with: the submitted one, or 0.12 when the key is missing. */
  function CostPerKwh(field: RawField<real>): real {
    if field.Parsed? then field.value else DefaultCostPerKwh
  }

  /** The reply of the handler to a request, as a value. */
  function CalculateSpec(req: Request): Response
  {
    if req.costPerKwh.Unparsable? then InternalError
    else
      var cost := CostPerKwh(req.costPerKwh);
      if cost <= 0.0 then Err(InvalidCostMessage)
      else match Screen(req.appliances)
        case None => InternalError
        case Some(apps) =>
          if apps == [] then Err(NoAppliancesMessage)
          else Ok(Results(apps), TotalEnergy(apps), TotalSavings(apps, cost))
  }

  /** The handler: check the cost, screen every item, then build the results and the totals. */
  method Calculate(req: Request) returns (resp: Response)
    ensures resp == CalculateSpec(req)
  {
    var cost: real;
    match req.costPerKwh {
      case Unparsable => return InternalError;
      case Absent => cost := DefaultCostPerKwh;
      case Parsed(c) => cost := c;
    }
    if cost <= 0.0 {
      return Err(InvalidCostMessage);
    }
    var screened := ScreenAppliances(req.appliances);
    if screened.None? {
      return InternalError;
    }
    var appliances := screened.value;
    if appliances == [] {
      return Err(NoAppliancesMessage);
    }
    var results, totalEnergy, totalSavings := BuildResults(appliances, cost);
    resp := Ok(results, totalEnergy, totalSavings);
  }

  /** The handler's first loop: append each admitted appliance; an uncaught exception ends the request. */
  method ScreenAppliances(items: seq<RawItem>) returns (appliances: Option<seq<Appliance>>)
    ensures appliances == Screen(items)
  {
    var admitted: seq<Appliance> := [];
    var i := 0;
    while i < |items|
      invariant 0 <= i <= |items|
      invariant Screen(items[..i]) == Some(admitted)
    {
      assert items[..i + 1][..i] == items[..i];
      match ScreenItem(items[i]) {
        case Abort =>
          ScreenAbortsExactly(items);
          return None;
        case Skip =>
        case Accept(a) =>
          admitted := admitted + [a];
      }
      i := i + 1;
    }
    assert items[..i] == items;
    appliances := Some(admitted);
  }

  /** The handler's second loop: append one entry per appliance and accumulate the two totals. */
  method BuildResults(appliances: seq<Appliance>, cost: real)
    returns (results: seq<ApplianceResult>, totalEnergy: real, totalSavings: real)
    ensures results == Results(appliances)
    ensures totalEnergy == TotalEnergy(appliances)
    ensures totalSavings == TotalSavings(appliances, cost)
  {
    results, totalEnergy, totalSavings := [], 0.0, 0.0;
    var j := 0;
    while j < |appliances|
      invariant 0 <= j <= |appliances|
      invariant results == Results(appliances[..j])
      invariant totalEnergy == TotalEnergy(appliances[..j])
      invariant totalSavings == TotalSavings(appliances[..j], cost)
    {
      assert appliances[..j + 1][..j] == appliances[..j];
      var appliance := appliances[j];
      var daily := appliance.DailyEnergyConsumption();
      var annual := appliance.AnnualEnergyConsumption();
      var gap := appliance.EfficiencyGap();
      var gapPercentage := if daily > 0.0 then gap / daily * 100.0 else 0.0;
      var entry := ApplianceResult(appliance.name, appliance.count, daily, annual, gap, gapPercentage,
                                   if gapPercentage >= ReplaceThresholdPercent then ConsiderReplacing else Efficient);
      assert entry == ResultFor(appliance);
      results := results + [entry];
      totalEnergy := totalEnergy + daily;
      totalSavings := totalSavings + gap * DaysPerYear * cost;
      j := j + 1;
    }
    assert appliances[..j] == appliances;
  }
}

/** Properties of the `/calculate` handler, stated on `CalculateSpec` and its parts. */
module CalculatorProperties {
  import opened Common
  import opened Appliances
  import opened Calculator

  /** Screening a concatenation is screening both parts: it fails if either part fails, and otherwise appends their survivors. */
  lemma {:induction false} ScreenConcat(xs: seq<RawItem>, ys: seq<RawItem>)
    ensures Screen(xs + ys) ==
      if Screen(xs).None? || Screen(ys).None? then None else Some(Screen(xs).value + Screen(ys).value)
    decreases |ys|
  {
    if ys == [] {
      assert xs + ys == xs;
      assert Screen(ys) == Some([]);
      if Screen(xs).Some? {
        assert Screen(xs).value + [] == Screen(xs).value;
      }
    } else {
      var ys', y := ys[..|ys| - 1], ys[|ys| - 1];
      ScreenConcat(xs, ys');
      assert (xs + ys)[..|xs + ys| - 1] == xs + ys';
      assert (xs + ys)[|xs + ys| - 1] == y;
      if Screen(xs).Some? && Screen(ys').Some? && ScreenItem(y).Accept? {
        assert Screen(xs).value + (Screen(ys').value + [ScreenItem(y).appliance])
            == (Screen(xs).value + Screen(ys').value) + [ScreenItem(y).appliance];
      }
    }
  }

  /** A skipped item leaves the screening of every other item, and the order of the survivors, as it was. */
  lemma SkippedItemDoesNotAbort(xs: seq<RawItem>, skipped: RawItem, ys: seq<RawItem>)
    requires ScreenItem(skipped).Skip?
    ensures Screen(xs + [skipped] + ys) == Screen(xs + ys)
  {
    ScreenConcat(xs, [skipped]);
    assert Screen([skipped]) == Some([]) by {
      assert [skipped][..0] == [];
    }
    assert Screen(xs + [skipped]) == Screen(xs);
    ScreenConcat(xs + [skipped], ys);
    ScreenConcat(xs, ys);
  }

  /**
   * For an item whose numeric fields are all present and converted: it is
   * skipped exactly when a field is out of domain, aborts the request when it
   * is in domain but has no name, and is admitted unchanged otherwise.
   */
  lemma ItemScreeningCases(item: RawItem)
    requires item.Item? && item.powerKw.Parsed? && item.hoursPerDay.Parsed? && item.efficiencyRatio.Parsed?
    requires !item.count.Unparsable?
    ensures var a := Appliance(if item.name.Some? then item.name.value else "", item.powerKw.value,
                               item.hoursPerDay.value, item.efficiencyRatio.value,
                               if item.count.Absent? then 1 else item.count.value);
      && (ScreenItem(item).Skip? <==> !a.InDomain())
      && (ScreenItem(item).Abort? <==> a.InDomain() && item.name.None?)
      && (ScreenItem(item).Accept? ==> ScreenItem(item).appliance == a)
  {
  }

  /**
   * Reading the numeric keys in order, the first one that is missing aborts
   * the whole request and the first one that does not convert only skips the
   * item; so does an item that is not an object, and a `count` that does not convert.
   */
  lemma MissingKeyAbortsUnparsableSkips(item: RawItem)
    ensures item.NotAnObject? ==> ScreenItem(item) == Skip
    ensures item.Item? && item.powerKw.Absent? ==> ScreenItem(item) == Abort
    ensures item.Item? && item.powerKw.Unparsable? ==> ScreenItem(item) == Skip
    ensures item.Item? && item.powerKw.Parsed? && item.hoursPerDay.Absent? ==> ScreenItem(item) == Abort
    ensures item.Item? && item.powerKw.Parsed? && item.hoursPerDay.Unparsable? ==> ScreenItem(item) == Skip
    ensures item.Item? && item.powerKw.Parsed? && item.hoursPerDay.Parsed? && item.efficiencyRatio.Absent?
      ==> ScreenItem(item) == Abort
    ensures item.Item? && item.powerKw.Parsed? && item.hoursPerDay.Parsed? && item.efficiencyRatio.Unparsable?
      ==> ScreenItem(item) == Skip
    ensures (item.Item? && item.powerKw.Parsed? && item.hoursPerDay.Parsed? && item.efficiencyRatio.Parsed?
             && item.count.Unparsable?) ==> ScreenItem(item) == Skip
  {
  }

  /** A missing `count` is read as 1. */
  lemma CountDefaultsToOne(item: RawItem)
    requires item.Item? && item.count.Absent?
    ensures ScreenItem(item) == ScreenItem(item.(count := Parsed(1)))
  {
  }

  /** When every item is admitted, the survivors are those appliances, one per item, in input order. */
  lemma {:induction false} AllAdmittedKeepsOrder(items: seq<RawItem>)
    requires forall k :: 0 <= k < |items| ==> ScreenItem(items[k]).Accept?
    ensures Screen(items).Some?
    ensures |Screen(items).value| == |items|
    ensures forall k :: 0 <= k < |items| ==> Screen(items).value[k] == ScreenItem(items[k]).appliance
    decreases |items|
  {
    if items != [] {
      var prefix := items[..|items| - 1];
      AllAdmittedKeepsOrder(prefix);
    }
  }

  /** The recommendation threshold on the gap percentage is an efficiency threshold of 0.8. */
  lemma RecommendationThreshold(a: Appliance)
    requires a.InDomain()
    ensures ResultFor(a).gapPercentage == (1.0 - a.efficiencyRatio) * 100.0
    ensures ResultFor(a).recommendation == ConsiderReplacing <==> a.efficiencyRatio <= 0.8
  {
    GapPercentageIsInefficiency(a);
  }

  /** What an entry of `results` says about the appliance it was made from. */
  ghost predicate ResultMeaning(r: ApplianceResult, a: Appliance) {
    && r.name == a.name
    && r.count == a.count
    && r.dailyEnergyConsumption == a.powerKw * a.hoursPerDay * a.count as real
    && r.dailyEnergyConsumption > 0.0
    && r.annualEnergyConsumption == DaysPerYear * r.dailyEnergyConsumption
    && r.gap == r.dailyEnergyConsumption * (1.0 - a.efficiencyRatio)
    && 0.0 <= r.gap < r.dailyEnergyConsumption
    && r.dailyEnergyConsumption - r.gap == a.IdealEnergyConsumption()
    && (r.gap == 0.0 <==> a.efficiencyRatio == 1.0)
    && 0.0 <= r.gapPercentage < 100.0
    && (r.recommendation == ConsiderReplacing <==> a.efficiencyRatio <= 0.8)
  }

  /** The entry made for an admitted appliance carries its figures and the threshold recommendation. */
  lemma ResultForMeaning(a: Appliance)
    requires a.InDomain()
    ensures ResultMeaning(ResultFor(a), a)
  {
    AdmittedFigures(a);
    RecommendationThreshold(a);
    GapIsInefficientShare(a);
  }

  /** Scaling by a positive price keeps the order of a gap and a consumption, and keeps a zero gap zero. */
  lemma ScaleByPrice(price: real, gap: real, energy: real)
    requires price > 0.0 && 0.0 <= gap <= energy
    ensures 0.0 <= price * gap <= price * energy
    ensures gap < energy ==> price * gap < price * energy
    ensures price * gap == 0.0 <==> gap == 0.0
  {
  }

  /** The sum of the daily gaps. */
  function TotalGap(apps: seq<Appliance>): real
  {
    if apps == [] then 0.0
    else TotalGap(apps[..|apps| - 1]) + apps[|apps| - 1].EfficiencyGap()
  }

  /** Accumulating a year of priced gap per appliance is pricing the summed gap once. */
  lemma {:induction false} TotalSavingsIsPricedGap(apps: seq<Appliance>, cost: real)
    ensures TotalSavings(apps, cost) == DaysPerYear * cost * TotalGap(apps)
    decreases |apps|
  {
    if apps != [] {
      var prefix := apps[..|apps| - 1];
      TotalSavingsIsPricedGap(prefix, cost);
      var gap, price, gaps := apps[|apps| - 1].EfficiencyGap(), DaysPerYear * cost, TotalGap(prefix);
      assert gap * DaysPerYear * cost == price * gap;
      assert price * (gaps + gap) == price * gaps + price * gap;
    }
  }

  /**
   * Over admitted appliances: the total energy is positive exactly when there
   * is an appliance, the summed gap lies between zero and the total energy,
   * strictly below it when there is an appliance, and is zero exactly when
   * every appliance has efficiency 1.
   */
  lemma {:induction false} TotalsBounds(apps: seq<Appliance>)
    requires forall a :: a in apps ==> a.InDomain()
    ensures apps == [] <==> TotalEnergy(apps) == 0.0
    ensures 0.0 <= TotalGap(apps) <= TotalEnergy(apps)
    ensures apps != [] ==> TotalGap(apps) < TotalEnergy(apps)
    ensures TotalGap(apps) == 0.0 <==> forall a :: a in apps ==> a.efficiencyRatio == 1.0
    decreases |apps|
  {
    if apps != [] {
      var prefix, last := apps[..|apps| - 1], apps[|apps| - 1];
      assert forall a :: a in prefix ==> a in apps;
      assert last in apps;
      TotalsBounds(prefix);
      AdmittedFigures(last);
      assert apps == prefix + [last];
      assert (forall a :: a in apps ==> a.efficiencyRatio == 1.0)
         <==> (forall a :: a in prefix ==> a.efficiencyRatio == 1.0) && last.efficiencyRatio == 1.0;
    }
  }

  /**
   * Over admitted appliances and a positive cost, the savings are never
   * negative, stay below a year of the whole consumption priced at `cost`,
   * and are zero exactly when every appliance has efficiency 1.
   */
  lemma TotalSavingsBounds(apps: seq<Appliance>, cost: real)
    requires forall a :: a in apps ==> a.InDomain()
    requires cost > 0.0
    ensures 0.0 <= TotalSavings(apps, cost) <= DaysPerYear * cost * TotalEnergy(apps)
    ensures apps != [] ==> TotalSavings(apps, cost) < DaysPerYear * cost * TotalEnergy(apps)
    ensures TotalSavings(apps, cost) == 0.0 <==> forall a :: a in apps ==> a.efficiencyRatio == 1.0
  {
    TotalsBounds(apps);
    TotalSavingsIsPricedGap(apps, cost);
    ScaleByPrice(DaysPerYear * cost, TotalGap(apps), TotalEnergy(apps));
  }

  /** Every reply falls in exactly one of the handler's four cases. */
  lemma ResponseCases(req: Request)
    ensures var resp := CalculateSpec(req);
      var cost := CostPerKwh(req.costPerKwh);
      var costOk := !req.costPerKwh.Unparsable? && cost > 0.0;
      && (resp == InternalError <==>
            req.costPerKwh.Unparsable? || (costOk && exists k :: 0 <= k < |req.appliances| && ScreenItem(req.appliances[k]).Abort?))
      && (resp == Err(InvalidCostMessage) <==> !req.costPerKwh.Unparsable? && cost <= 0.0)
      && (resp == Err(NoAppliancesMessage) <==> costOk && Screen(req.appliances) == Some([]))
      && (resp.Ok? <==> costOk && Screen(req.appliances).Some? && Screen(req.appliances).value != [])
  {
    ScreenAbortsExactly(req.appliances);
  }

  /** A missing cost is read as 0.12 per kWh. */
  lemma CostDefault(req: Request)
    requires req.costPerKwh.Absent?
    ensures CalculateSpec(req) == CalculateSpec(req.(costPerKwh := Parsed(DefaultCostPerKwh)))
  {
  }

  /**
   * A successful reply has one entry per surviving appliance, in order,
   * carrying its name, count and energy figures and the threshold
   * recommendation; there are at least one and at most as many as the items.
   */
  lemma OkResponseEntries(req: Request)
    requires CalculateSpec(req).Ok?
    ensures Screen(req.appliances).Some?
    ensures 0 < |CalculateSpec(req).results| == |Screen(req.appliances).value| <= |req.appliances|
    ensures forall k :: 0 <= k < |Screen(req.appliances).value| ==>
      ResultMeaning(CalculateSpec(req).results[k], Screen(req.appliances).value[k])
  {
    var apps := Screen(req.appliances).value;
    assert CalculateSpec(req).results == Results(apps);
    ResultsInOrder(apps);
    ScreenSurvivors(req.appliances);
    forall k | 0 <= k < |apps|
      ensures ResultMeaning(ResultFor(apps[k]), apps[k])
    {
      assert apps[k] in apps;
      ResultForMeaning(apps[k]);
    }
  }

  /**
   * The totals of a successful reply: the energy is positive, and the savings
   * are non-negative and zero exactly when every surviving appliance has
   * efficiency 1.
   */
  lemma OkResponseTotals(req: Request)
    requires CalculateSpec(req).Ok?
    ensures Screen(req.appliances).Some?
    ensures CalculateSpec(req).totalEnergy > 0.0
    ensures 0.0 <= CalculateSpec(req).totalSavings
    ensures CalculateSpec(req).totalSavings == 0.0 <==>
      forall a :: a in Screen(req.appliances).value ==> a.efficiencyRatio == 1.0
  {
    var apps := Screen(req.appliances).value;
    var cost := CostPerKwh(req.costPerKwh);
    assert CalculateSpec(req) == Ok(Results(apps), TotalEnergy(apps), TotalSavings(apps, cost));
    ScreenSurvivors(req.appliances);
    TotalsBounds(apps);
    TotalSavingsBounds(apps, cost);
  }

  /** The savings of a successful reply stay below a year of its total energy priced at the request's cost. */
  lemma OkSavingsBelowPricedEnergy(req: Request)
    requires CalculateSpec(req).Ok?
    ensures CalculateSpec(req).totalSavings < DaysPerYear * CostPerKwh(req.costPerKwh) * CalculateSpec(req).totalEnergy
  {
    var apps := Screen(req.appliances).value;
    var cost := CostPerKwh(req.costPerKwh);
    assert CalculateSpec(req) == Ok(Results(apps), TotalEnergy(apps), TotalSavings(apps, cost));
    ScreenSurvivors(req.appliances);
    TotalSavingsBounds(apps, cost);
  }
}
