# EnergyAudit calculator, modelled in Dafny

EnergyAudit is a small web tool. The user lists appliances in a form; each row has a name, a power rating in W or kW, hours of use per day, an efficiency ratio in (0, 1] and a count. The browser validates the rows and the electricity price, then posts them to the server. The server's `/calculate` handler returns, for each appliance, its daily and annual consumption, its efficiency gap and a recommendation, plus the total daily energy and the yearly savings available. The browser then fills a table and draws a bar chart of current and ideal consumption.

The project models both halves.

- `appliance.dfy`, module `Appliances`: the server's `Appliance` record and its four derived figures (daily, annual, ideal, gap). Lemmas state what those figures are for an appliance the server admits.
- `calculator.dfy`, module `Calculator`: the `/calculate` handler.
  - `CalculateSpec` states the reply as a function of the request.
  - The method `Calculate` follows the handler's two loops (`ScreenAppliances`, `BuildResults`) and is proved equal to `CalculateSpec`.
  - Each numeric request field is abstracted as absent, converted, or rejected by `float()`/`int()`; the `name` of an item is either missing or a string.
  - The reply is `Ok`, `Err(message)` (the HTTP 400 replies), or `InternalError` (an exception the handler does not catch, i.e. HTTP 500).
- `calculator.dfy`, module `CalculatorProperties`: what the handler promises.
  - Invalid items are skipped one by one and never abort the request.
  - The survivors keep their input order.
  - Results correspond one-to-one with the survivors.
  - The recommendation is "Consider replacing" exactly when the efficiency is at most 0.8.
  - Bounds on the totals, and which of the four reply cases occurs.
- `client.dfy`, module `Client`: the browser's submit handler and the chart series of `updateResults`.
  - The DOM is replaced by a sequence of rows holding the values `parseFloat`/`parseInt` produce, with `None` for NaN.
  - The `alert` calls become the list of messages shown.
  - `Submit` is proved against `CheckAll` and `SubmitAlerts`; lemmas give their meaning.
- `endtoend.dfy`, module `EndToEnd`: the body the browser sends, as the server reads it.
  - A successful submission with at least one row gets one result per row, in row order, with the row's trimmed name and count.
  - With no rows, the server answers "No valid appliances provided".
  - The chart's ideal bar is the appliance's ideal consumption.
- `common.dfy`, module `Common`: the `Option` type.

The two halves apply different policies, and the model keeps both.

- The browser is all-or-nothing: one bad row, or a bad price, and nothing is sent. Every row is still checked, with one alert per bad row, because the `return` inside `forEach` only ends that row's callback.
- The server filters item by item. An item with an out-of-range or unconvertible field is skipped.
- A missing `power_kw`, `hours_per_day` or `efficiency_ratio` key raises `KeyError`, which the handler's `except (ValueError, TypeError)` does not catch, so the whole request fails. The same happens for a missing `name` on an item whose numbers are in range.
- A `cost_per_kwh` that `float()` cannot convert raises `ValueError` (a string that is not a number) or `TypeError` (for example `null`). Neither is caught there, so the request fails.

One bad appliance does not reject the request: the server skips it (the `continue` statements at app.py:47 and app.py:52) and goes on with the next item.

## Model

| member | source | states |
|---|---|---|
| Appliances.GapIsInefficientShare | app.py:19-23 | the gap is daily × (1 − efficiency), and ideal plus gap is the daily consumption |
| Appliances.AdmittedFigures | app.py:13-23 | for an admitted appliance: daily > 0; annual > daily; 0 < ideal ≤ daily; 0 ≤ gap < daily; gap = 0 (and ideal = daily) exactly when the efficiency is 1 |
| Calculator.ScreenItem | app.py:40-52 | an item that is accepted yields an appliance whose power, hours and count are positive and whose efficiency is in (0, 1] |
| Calculator.GapPercentageIsInefficiency | app.py:66 | for an admitted appliance the daily consumption is positive, so the `else 0` branch is dead, and gap/daily × 100 = (1 − efficiency) × 100 |
| Calculator.ScreenAbortsExactly | app.py:39-52 | the request fails with an uncaught exception exactly when some item raises one |
| Calculator.ScreenSurvivors | app.py:39-52 | there are at most as many survivors as items, and every survivor is within the admitted domain |
| Calculator.ResultsInOrder | app.py:57-76 | the results list has one entry per appliance, entry k being built from appliance k |
| Calculator.Calculate | app.py:30-81 | the handler's reply equals `CalculateSpec` of the request |
| Calculator.ScreenAppliances | app.py:37-52 | the first loop yields exactly the screened survivors in input order, or a failure when an item raises an uncaught exception |
| Calculator.BuildResults | app.py:57-79 | the second loop yields the per-appliance results, the summed daily energy and the summed yearly priced gap |
| CalculatorProperties.ScreenConcat | app.py:39-52 | screening a concatenation fails if either part fails; otherwise the survivors are those of the first part followed by those of the second |
| CalculatorProperties.SkippedItemDoesNotAbort | app.py:46-52 | inserting a skipped item anywhere leaves the outcome for all other items unchanged |
| CalculatorProperties.ItemScreeningCases | app.py:44-50 | an item whose numbers all converted is skipped exactly when a field is out of domain, aborts exactly when it is in domain with no name, and is otherwise admitted with its own field values |
| CalculatorProperties.MissingKeyAbortsUnparsableSkips | app.py:40-52 | a non-object item is skipped; reading the keys in order, the first missing numeric key aborts the request, and the first unconvertible field (count included) only skips the item |
| CalculatorProperties.CountDefaultsToOne | app.py:44 | an item without `count` is treated exactly like one with count 1 |
| CalculatorProperties.AllAdmittedKeepsOrder | app.py:39-50 | when every item is admitted, the survivors are exactly those appliances, one per item, in input order |
| CalculatorProperties.RecommendationThreshold | app.py:66-75 | the gap percentage is (1 − efficiency) × 100, and "Consider replacing" is given exactly when the efficiency is at most 0.8 |
| CalculatorProperties.ResultForMeaning | app.py:61-76 | a result carries its appliance's name and count, daily = power × hours × count > 0, annual = 365 × daily, gap = daily × (1 − efficiency) in [0, daily), daily − gap = ideal, a percentage in [0, 100), and the threshold recommendation |
| CalculatorProperties.TotalSavingsIsPricedGap | app.py:78-79 | the accumulated savings equal 365 × cost × the sum of the daily gaps |
| CalculatorProperties.TotalsBounds | app.py:58-78 | over admitted appliances, the total energy is 0 exactly when there are none; the summed gap lies in [0, total energy], strictly below it when there is an appliance, and is 0 exactly when every efficiency is 1 |
| CalculatorProperties.TotalSavingsBounds | app.py:59-79 | for a positive cost, the savings lie between 0 and a year of the total energy at that cost; they are strictly below it when there is an appliance, and 0 exactly when every efficiency is 1 |
| CalculatorProperties.ResponseCases | app.py:30-55 | the reply is an internal error exactly when the cost fails to convert, or the cost is valid and some item aborts; "Invalid electricity cost" exactly when the cost is ≤ 0; "No valid appliances provided" exactly when no item survives; results otherwise |
| CalculatorProperties.CostDefault | app.py:32 | a request without a cost is answered as one with cost 0.12 |
| CalculatorProperties.OkResponseEntries | app.py:54-76 | a successful reply has between 1 and (number of items) results, one per surviving appliance, in order, each with the meaning given by ResultForMeaning |
| CalculatorProperties.OkResponseTotals | app.py:57-81 | in a successful reply the total energy is positive, and the savings are non-negative and are 0 exactly when every surviving efficiency is 1 |
| CalculatorProperties.OkSavingsBelowPricedEnergy | app.py:78-79 | in a successful reply the savings stay below 365 × cost × total energy |
| Client.TrimStartShape | static/script.js:31 | removing leading whitespace keeps a suffix that does not start with whitespace, and everything removed is whitespace |
| Client.TrimEndShape | static/script.js:31 | removing trailing whitespace keeps a prefix that does not end with whitespace, and everything removed is whitespace |
| Client.TrimShape | static/script.js:31 | the trimmed name is a slice of the input with whitespace on both sides cut off, neither starting nor ending with whitespace, and empty exactly when the input is blank |
| Client.ToKilowatts | static/script.js:38-41 | a power in W is divided by 1000 and any other unit is kept; the sign of the power is preserved |
| Client.CheckRowMeaning | static/script.js:30-52 | a row is accepted exactly when the name is not blank, every number parsed, power (after conversion), hours and count are positive, and efficiency is in (0, 1]; the record then carries the trimmed name, the converted power and the other inputs, and lies within the server's domain |
| Client.WattsAreThousandthsOfKilowatts | static/script.js:38-41 | a row of 1000·p W is validated and recorded exactly like a row of p kW |
| Client.CheckAllMeaning | static/script.js:30-55 | records are produced exactly when every row is valid, and then there is one per row, in row order |
| Client.InvalidRowCountMeaning | static/script.js:44-49 | there are at most as many row alerts as rows, and none exactly when every row is valid |
| Client.ValidateRow | static/script.js:30-52 | one pass of the `forEach` callback yields exactly the row's record, or rejects the row |
| Client.Submit | static/script.js:24-61 | a request is sent exactly when every row is valid and the cost passes, and it holds the cost and the records of all rows; the alerts shown are exactly one per bad row, then the cost alert if only the cost failed |
| Client.SubmitOutcome | static/script.js:27-61 | a request goes out exactly when all rows are valid and the cost is a positive number, with one record per row in order; there is one alert per rejected row, and the cost alert appears only, and alone, when every row passed and the cost did not |
| Client.ChartSeries | static/script.js:112-125 | labels, current values and ideal values have one entry per result, in result order, the ideal value being daily consumption minus gap |
| EndToEnd.RecordAdmitted | app.py:40-50 | a record that passed the browser's checks is admitted by the server unchanged |
| EndToEnd.PayloadFullyAdmitted | app.py:39-50 | a body whose records all passed the browser's checks loses no record on the server, and the order is kept |
| EndToEnd.SubmittedPayloadAnswered | static/script.js:52 | for the body sent after a successful submission, the server answers "No valid appliances provided" exactly when there are no rows; otherwise it returns one result per row, in order, with that row's trimmed name and count |
| EndToEnd.ChartIdealIsIdealConsumption | static/script.js:125 | in a successful reply, each chart ideal value (daily − gap) equals the surviving appliance's ideal consumption and lies in (0, daily] |

## Left out

- Rounding: `round(x, 2)` on each result figure and on the two totals is not modelled. Results hold the exact real values.
- Floating point:
  - all arithmetic is over exact reals;
  - NaN and infinities accepted by Python's `float()` are not modelled;
- CalculatorProperties.RecommendationThreshold: gives the threshold over real numbers ("Consider replacing" exactly when efficiency ≤ 0.8). At efficiency exactly 0.8 the running program's verdict depends on the daily figure, because the handler computes gap = daily − daily × 0.8 and then gap / daily × 100 in doubles. A daily figure of 1 gives 19.999999999999996 ("Efficient"); a daily figure of 10 or 5 gives 20.0 ("Consider replacing").
- Parsing:
  - `parseFloat`, `parseInt`, `float()` and `int()` are abstracted into their results;
  - `int()` truncation of a fractional count happens inside that abstraction;
  - a body that is not a JSON object, and a non-list `appliances` value, are not modelled;
  - a missing `appliances` key is the empty list;
  - an item's `name` is read without any check, so a present name that is not a string (`null`, a number) is admitted and echoed in its result; the model's `name` is only missing or a string, so such items are not represented;
  - a `count` of `1e400` or `Infinity` (both accepted by Python's JSON reader) makes `int()` raise `OverflowError`, which the handler's `except (ValueError, TypeError)` does not catch, so the request fails; the model has no field value for this (its `Unparsable` would skip the item), and the same holds for an integer too large for `float()` in a numeric field.
- Recommendation strings: the strings "⚠️ Consider replacing" and "✔️ Efficient" are the two constructors of `Recommendation`.
- Unused variable: the `ideal` variable the handler computes but never uses is not modelled.
- Flask plumbing: routing, `render_template`, `jsonify`, HTTP status codes and `app.run` are replaced by the `Response` datatype.
- Browser glue:
  - dark mode and `localStorage`;
  - `addAppliance`;
  - table HTML;
  - the Chart.js call;
  - the `fetch` and the handling of its reply.

  Only the three series given to the chart are modelled.
- Alerts: `alert` is modelled as the list of messages shown, in order. Its blocking, modal nature is not modelled.
