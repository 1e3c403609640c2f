/**
 * The browser side (static/script.js): the submit handler that reads every
 * form row, converts watts to kilowatts, validates the row and builds the
 * request body, and the part of `updateResults` that derives the chart's
 * series from the server's results.
 *
 * The DOM is abstracted away: a row arrives as the values its inputs hold
 * after `parseFloat` / `parseInt`, with `None` for NaN.
 */
module Client {
  import opened Common
  import Calculator

  /** One `.appliance` row of the form. `name` is the raw input text, before trimming. */
  datatype Row = Row(
    name: string,
    power: Option<real>,
    unit: string,
    hours: Option<real>,
    efficiency: Option<real>,
    count: Option<int>)

  /** One element of the `appliances` array of the request body. */
  datatype ApplianceRecord = ApplianceRecord(
    name: string,
    powerKw: real,
    hoursPerDay: real,
    efficiencyRatio: real,
    count: int)

  /** The request body `{ cost_per_kwh, appliances }`. */
  datatype Payload = Payload(costPerKwh: real, appliances: seq<ApplianceRecord>)

  const RowAlert: string := "Please enter valid positive values. Efficiency must be between 0 and 1."
  const CostAlert: string := "Please enter a valid electricity cost."
  const WattsPerKilowatt: real := 1000.0

  /**
   * The characters `String.prototype.trim` removes: the ECMAScript
   * WhiteSpace (tab, vertical tab, form feed, space, no-break space, the
   * byte-order mark and every Unicode space separator) and LineTerminator
   * (line feed, carriage return, line and paragraph separators) code points.
   */
  predicate IsJsWhitespace(c: char) {
    var n := c as int;
    n == 0x09 || n == 0x0A || n == 0x0B || n == 0x0C || n == 0x0D || n == 0x20 || n == 0xA0 ||
    n == 0x1680 || (0x2000 <= n <= 0x200A) || n == 0x2028 || n == 0x2029 || n == 0x202F ||
    n == 0x205F || n == 0x3000 || n == 0xFEFF
  }

  /** `s` without its leading whitespace. */
  function TrimStart(s: string): string
  {
    if s != [] && IsJsWhitespace(s[0]) then TrimStart(s[1..]) else s
  }

  /** `s` without its trailing whitespace. */
  function TrimEnd(s: string): string
  {
    if s != [] && IsJsWhitespace(s[|s| - 1]) then TrimEnd(s[..|s| - 1]) else s
  }

  /** `String.prototype.trim`. */
  function Trim(s: string): string
  {
    TrimEnd(TrimStart(s))
  }

  /** `TrimStart` removes exactly a run of whitespace from the front: what remains is a suffix that does not start with whitespace. */
  lemma {:induction false} TrimStartShape(s: string)
    ensures |TrimStart(s)| <= |s|
    ensures TrimStart(s) == s[|s| - |TrimStart(s)|..]
    ensures forall k :: 0 <= k < |s| - |TrimStart(s)| ==> IsJsWhitespace(s[k])
    ensures TrimStart(s) != [] ==> !IsJsWhitespace(TrimStart(s)[0])
  {
    if s != [] && IsJsWhitespace(s[0]) {
      var rest := s[1..];
      TrimStartShape(rest);
      var t := TrimStart(rest);
      assert TrimStart(s) == t;
      assert rest[|rest| - |t|..] == s[|s| - |t|..];
      forall k | 0 <= k < |s| - |t|
        ensures IsJsWhitespace(s[k])
      {
        if k > 0 {
          assert s[k] == rest[k - 1];
        }
      }
    }
  }

  /** `TrimEnd` removes exactly a run of whitespace from the back: what remains is a prefix that does not end with whitespace. */
  lemma {:induction false} TrimEndShape(s: string)
    ensures |TrimEnd(s)| <= |s|
    ensures TrimEnd(s) == s[..|TrimEnd(s)|]
    ensures forall k :: |TrimEnd(s)| <= k < |s| ==> IsJsWhitespace(s[k])
    ensures TrimEnd(s) != [] ==> !IsJsWhitespace(TrimEnd(s)[|TrimEnd(s)| - 1])
  {
    if s != [] && IsJsWhitespace(s[|s| - 1]) {
      var rest := s[..|s| - 1];
      TrimEndShape(rest);
      var t := TrimEnd(rest);
      assert TrimEnd(s) == t;
      assert rest[..|t|] == s[..|t|];
      forall k | |t| <= k < |s|
        ensures IsJsWhitespace(s[k])
      {
        if k < |s| - 1 {
          assert s[k] == rest[k];
        }
      }
    }
  }

  /**
   * The trimmed text is a slice of the input that neither starts nor ends
   * with whitespace, everything cut off is whitespace, and it is empty
   * exactly when the input is blank.
   */
  lemma TrimShape(s: string)
    ensures var r, i := Trim(s), |s| - |TrimStart(s)|;
      && 0 <= i <= i + |r| <= |s|
      && r == s[i..i + |r|]
      && (forall k :: 0 <= k < i ==> IsJsWhitespace(s[k]))
      && (forall k :: i + |r| <= k < |s| ==> IsJsWhitespace(s[k]))
      && (r != [] ==> !IsJsWhitespace(r[0]) && !IsJsWhitespace(r[|r| - 1]))
      && (r == [] <==> forall k :: 0 <= k < |s| ==> IsJsWhitespace(s[k]))
  {
    var t := TrimStart(s);
    TrimStartShape(s);
    TrimEndShape(t);
    var r := Trim(s);
    var i := |s| - |t|;
    assert r == s[i..i + |r|];
    forall k | i + |r| <= k < |s|
      ensures IsJsWhitespace(s[k])
    {
      assert s[k] == t[k - i];
    }
    if r != [] {
      assert r[0] == t[0];
    } else {
      assert t == [];
    }
  }

  /** The power in kilowatts: a value entered in watts is divided by 1000, any other unit is kept. */
  function ToKilowatts(power: real, unit: string): (kw: real)
    ensures unit == "W" ==> kw * WattsPerKilowatt == power
    ensures unit != "W" ==> kw == power
    ensures kw > 0.0 <==> power > 0.0
  {
    if unit == "W" then power / WattsPerKilowatt else power
  }

  /** A record the server admits: a non-blank trimmed name and every field in its domain. */
  predicate RecordInDomain(r: ApplianceRecord) {
    && r.name != [] && !IsJsWhitespace(r.name[0]) && !IsJsWhitespace(r.name[|r.name| - 1])
    && r.powerKw > 0.0 && r.hoursPerDay > 0.0 && 0.0 < r.efficiencyRatio <= 1.0 && r.count > 0
  }

  /** One pass of the `forEach` callback as a value: the record it pushes, or `None` when the row is rejected. */
  function CheckRow(row: Row): Option<ApplianceRecord>
  {
    var name := Trim(row.name);
    var power := if row.power.Some? then Some(ToKilowatts(row.power.value, row.unit)) else None;
    if name == [] || power.None? || row.hours.None? || row.efficiency.None? || row.count.None? then None
    else if power.value <= 0.0 || row.hours.value <= 0.0 || row.efficiency.value <= 0.0
         || row.efficiency.value > 1.0 || row.count.value <= 0 then None
    else Some(ApplianceRecord(name, power.value, row.hours.value, row.efficiency.value, row.count.value))
  }

  /**
   * A row is accepted exactly when its name is not blank, every number was
   * read, and power, hours and count are positive with efficiency in (0, 1];
   * the record then carries the trimmed name, the power in kilowatts and the
   * other inputs unchanged, and is in the server's domain.
   */
  lemma CheckRowMeaning(row: Row)
    ensures CheckRow(row).Some? <==>
      && (exists k :: 0 <= k < |row.name| && !IsJsWhitespace(row.name[k]))
      && row.power.Some? && row.hours.Some? && row.efficiency.Some? && row.count.Some?
      && row.power.value > 0.0 && row.hours.value > 0.0
      && 0.0 < row.efficiency.value <= 1.0 && row.count.value > 0
    ensures CheckRow(row).Some? ==>
      var r := CheckRow(row).value;
      && r.name == Trim(row.name)
      && r.powerKw == ToKilowatts(row.power.value, row.unit)
      && r.hoursPerDay == row.hours.value
      && r.efficiencyRatio == row.efficiency.value
      && r.count == row.count.value
      && RecordInDomain(r)
  {
    TrimShape(row.name);
  }

  /** A row whose power is given in watts is read as the same row with a thousandth of that power in kilowatts. */
  lemma WattsAreThousandthsOfKilowatts(row: Row, kw: real)
    requires row.unit == "W" && row.power == Some(kw * WattsPerKilowatt)
    ensures CheckRow(row) == CheckRow(row.(unit := "kW", power := Some(kw)))
  {
  }

  /** Every row passes validation. */
  predicate AllRowsValid(rows: seq<Row>) {
    forall k :: 0 <= k < |rows| ==> CheckRow(rows[k]).Some?
  }

  /** The records of all rows, in row order, or `None` as soon as one row is rejected. */
  function CheckAll(rows: seq<Row>): Option<seq<ApplianceRecord>>
  {
    if rows == [] then Some([])
    else
      var prefix := CheckAll(rows[..|rows| - 1]);
      var last := CheckRow(rows[|rows| - 1]);
      if prefix.None? || last.None? then None else Some(prefix.value + [last.value])
  }

  /** The records exist exactly when every row is valid, and then there is one per row, in order. */
  lemma {:induction false} CheckAllMeaning(rows: seq<Row>)
    ensures CheckAll(rows).Some? <==> AllRowsValid(rows)
    ensures CheckAll(rows).Some? ==>
      && |CheckAll(rows).value| == |rows|
      && forall k :: 0 <= k < |rows| ==> CheckRow(rows[k]) == Some(CheckAll(rows).value[k])
  {
    if rows != [] {
      var prefix := rows[..|rows| - 1];
      CheckAllMeaning(prefix);
      assert forall k :: 0 <= k < |prefix| ==> prefix[k] == rows[k];
    }
  }

  /** The number of rows rejected, which is also the number of row alerts shown. */
  function InvalidRowCount(rows: seq<Row>): nat
  {
    if rows == [] then 0
    else InvalidRowCount(rows[..|rows| - 1]) + if CheckRow(rows[|rows| - 1]).None? then 1 else 0
  }

  /** At most every row is rejected, and none is exactly when all rows are valid. */
  lemma {:induction false} InvalidRowCountMeaning(rows: seq<Row>)
    ensures InvalidRowCount(rows) <= |rows|
    ensures InvalidRowCount(rows) == 0 <==> AllRowsValid(rows)
  {
    if rows != [] {
      var prefix := rows[..|rows| - 1];
      InvalidRowCountMeaning(prefix);
      assert forall k :: 0 <= k < |prefix| ==> prefix[k] == rows[k];
    }
  }

  /** The cost input passes its check: a number, and positive. */
  predicate CostAcceptable(cost: Option<real>) {
    cost.Some? && cost.value > 0.0
  }

  /** The alerts one submission shows: one per rejected row, then the cost alert if only the cost is wrong. */
  function SubmitAlerts(rows: seq<Row>, cost: Option<real>): seq<string>
  {
    seq(InvalidRowCount(rows), _ => RowAlert)
      + if InvalidRowCount(rows) == 0 && !CostAcceptable(cost) then [CostAlert] else []
  }

  /**
   * The `forEach` callback for one row: trim the name, convert watts to
   * kilowatts in place, and either reject the row or build its record.
   */
  method ValidateRow(row: Row) returns (record: Option<ApplianceRecord>)
    ensures record == CheckRow(row)
  {
    var name := Trim(row.name);
    var power := row.power;
    if row.unit == "W" && power.Some? {
      power := Some(power.value / WattsPerKilowatt);
    }
    if name == [] || power.None? || row.hours.None? || row.efficiency.None? || row.count.None?
       || power.value <= 0.0 || row.hours.value <= 0.0 || row.efficiency.value <= 0.0
       || row.efficiency.value > 1.0 || row.count.value <= 0
    {
      return None;
    }
    record := Some(ApplianceRecord(name, power.value, row.hours.value, row.efficiency.value, row.count.value));
  }

  /**
   * The submit handler up to the `fetch`: every row is visited (the callback's
   * `return` only ends that row), each bad row raises an alert and clears
   * `valid`; the cost is read only when every row was valid. The request is
   * sent only when every row and the cost pass, and it then holds the records
   * of all rows, in row order.
   */
  method Submit(rows: seq<Row>, cost: Option<real>) returns (request: Option<Payload>, alerts: seq<string>)
    ensures request.Some? <==> CheckAll(rows).Some? && CostAcceptable(cost)
    ensures request.Some? ==> request.value == Payload(cost.value, CheckAll(rows).value)
    ensures alerts == SubmitAlerts(rows, cost)
  {
    var appliances: seq<ApplianceRecord> := [];
    var valid := true;
    alerts := [];
    var i := 0;
    while i < |rows|
      invariant 0 <= i <= |rows|
      invariant valid <==> CheckAll(rows[..i]).Some?
      invariant valid ==> CheckAll(rows[..i]).value == appliances
      invariant alerts == seq(InvalidRowCount(rows[..i]), _ => RowAlert)
    {
      assert rows[..i + 1][..i] == rows[..i];
      var record := ValidateRow(rows[i]);
      if record.None? {
        valid := false;
        alerts := alerts + [RowAlert];
      } else {
        appliances := appliances + [record.value];
      }
      i := i + 1;
    }
    assert rows[..i] == rows;
    CheckAllMeaning(rows);
    InvalidRowCountMeaning(rows);
    if !valid {
      return None, alerts;
    }
    if cost.None? || cost.value <= 0.0 {
      return None, alerts + [CostAlert];
    }
    request := Some(Payload(cost.value, appliances));
  }

  /**
   * What one submission does: a request goes out exactly when every row and
   * the cost pass, holding the cost and one record per row in row order; one
   * alert is shown per rejected row, and the cost alert only when every row
   * passed and the cost did not.
   */
  lemma {:induction false} SubmitOutcome(rows: seq<Row>, cost: Option<real>)
    ensures CheckAll(rows).Some? && CostAcceptable(cost) <==> AllRowsValid(rows) && CostAcceptable(cost)
    ensures AllRowsValid(rows) ==> CheckAll(rows).Some? && |CheckAll(rows).value| == |rows|
    ensures AllRowsValid(rows) ==> CheckAll(rows).Some? && forall k :: 0 <= k < |rows| ==> CheckRow(rows[k]) == Some(CheckAll(rows).value[k])
    ensures |SubmitAlerts(rows, cost)| == InvalidRowCount(rows) + if AllRowsValid(rows) && !CostAcceptable(cost) then 1 else 0
    ensures InvalidRowCount(rows) <= |rows|
    ensures AllRowsValid(rows) && !CostAcceptable(cost) ==> SubmitAlerts(rows, cost) == [CostAlert]
    ensures !AllRowsValid(rows) ==> forall k :: 0 <= k < |SubmitAlerts(rows, cost)| ==> SubmitAlerts(rows, cost)[k] == RowAlert
  {
    CheckAllMeaning(rows);
    InvalidRowCountMeaning(rows);
  }

  /**
   * The series `updateResults` gives the bar chart: one label, one current
   * value and one ideal value per result, in the order of the results, the
   * ideal value being the daily consumption less the gap.
   */
  method ChartSeries(results: seq<Calculator.ApplianceResult>)
    returns (labels: seq<string>, currentValues: seq<real>, idealValues: seq<real>)
    ensures |labels| == |currentValues| == |idealValues| == |results|
    ensures forall k :: 0 <= k < |results| ==>
      && labels[k] == results[k].name
      && currentValues[k] == results[k].dailyEnergyConsumption
      && idealValues[k] == results[k].dailyEnergyConsumption - results[k].gap
  {
    labels, currentValues, idealValues := [], [], [];
    var i := 0;
    while i < |results|
      invariant 0 <= i <= |results|
      invariant |labels| == |currentValues| == |idealValues| == i
      invariant forall k :: 0 <= k < i ==>
        && labels[k] == results[k].name
        && currentValues[k] == results[k].dailyEnergyConsumption
        && idealValues[k] == results[k].dailyEnergyConsumption - results[k].gap
    {
      var item := results[i];
      labels := labels + [item.name];
      currentValues := currentValues + [item.dailyEnergyConsumption];
      idealValues := idealValues + [item.dailyEnergyConsumption - item.gap];
      i := i + 1;
    }
  }
}
