# Region workflow and usage billing, modelled in Dafny

This project models the two pieces of logic in an ISP back office built on
Laravel.

**The region development pipeline.** A region moves through five stages in
a fixed order: `data`, `design`, `rab` (budget plan), `permits`, `completed`.
Four completion flags (`data_completed` … `permits_completed`) are derived
from the stage.

- `RegionController::store` creates a region at any stage. Its input is
  validated by `StoreRegionRequest`. The rules of that request always cover
  name, code, description and stage, and add the payload rules of the
  requested stage (`data` when the stage is absent).
- `RegionController::update` first refuses a forward jump of more than one
  stage. It then validates the request, recomputes the flags only when the
  request carries a stage, and writes only the attributes present.

**Usage billing (`MikroTikService`).**

- `syncCustomerUsage` fetches a customer's usage report and stamps
  `last_usage_sync`.
- `syncAllCustomers` runs that sync for every customer with a MikroTik
  username. It counts successes and failures, and upserts the month's
  billing record for each success.
- The record's amount is a package's base rate plus 2000 per GB beyond the
  package's allowance.
- `manageCustomerAccount` maps `enable`/`disable`/`suspend` to a customer
  status.

Modules:

- `Stages`: stages, their order, the flag derivation and the update guard,
  with PHP's `array_search` modelled.
- `Validation`: the subset of Laravel's validator these requests use:
  rules run in order per attribute, a failed `required` stops the
  attribute, `unique` runs only while the attribute has no error, and
  `validated()` trims array attributes to the entries that have rules.
- `RegionRequest`: the rules and messages of `StoreRegionRequest`.
- `RegionController`: `Region` is a class whose fields `store` and `update`
  set.
- `BillingAmount`: the charge, in exact rationals.
- `BillingRecords`: the `billing_records` table as a sequence of rows, and
  `updateOrCreate` on it.
- `MikroTikService`: `Customer` is a class whose `status` and
  `last_usage_sync` are updated in place. It holds the sync loop and the
  account actions.
- `Wrappers`: `Option` and `Result`.

The clock, the `Y-m` month and the router are parameters:

- `now` is an integer number of seconds.
- `month` is a string.
- The reports the router would return are a map from MikroTik username to
  report. A username missing from the map is a failed fetch.

## Model

| member | source | states |
|---|---|---|
| Stages.Index | app/Http/Controllers/RegionController.php:81-83 | every stage has a position in `['data','design','rab','permits','completed']`, and its name sits at that position |
| Stages.Search | app/Http/Controllers/RegionController.php:82-83 | `array_search`: the first index holding the name, or no index exactly when the name is absent |
| Stages.Parse | app/Http/Controllers/RegionController.php:96 | a string names a stage exactly when it is one of the five names, and then that stage's name is the string |
| Stages.NameIsInjective | app/Http/Controllers/RegionController.php:81 | two stages with the same name are the same stage |
| Stages.SearchName | app/Http/Controllers/RegionController.php:82-83 | searching a stage's name finds its index, and parsing the name gives the stage back |
| Stages.SearchFindsStage | app/Http/Controllers/RegionController.php:83 | the search succeeds exactly for names that parse, and then at the parsed stage's index |
| Stages.FlagsFor | app/Http/Controllers/RegionController.php:42-45 | for a stage name, `data_completed` is set and flag i (i = 1, 2, 3) is set exactly when the stage's index is at least i; any other string gives four false flags |
| Stages.FlagsByIndex | app/Http/Controllers/RegionController.php:41-45 | for each stage, flag i is set exactly when i <= the stage's index |
| Stages.FlagsMonotone | app/Http/Controllers/RegionController.php:101-104 | permits_completed implies rab_completed implies design_completed implies data_completed, for any string |
| Stages.FlagsOfUnknownName | app/Http/Controllers/RegionController.php:42-45 | a string that is not a stage name gives four false flags |
| Stages.SkipsStage | app/Http/Controllers/RegionController.php:85 | the guard fires exactly when the requested string names a stage more than one step after the current one; names that match no stage never fire it |
| Stages.GuardAllowsAtMostOneStep | app/Http/Controllers/RegionController.php:85-87 | moving to a valid stage passes the guard if and only if its index is at most current + 1, which covers staying put and going backward |
| Stages.CompletedNeverSkips | app/Http/Controllers/RegionController.php:85 | from `completed` no requested string is rejected by the guard |
| Stages.DataToRabSkips | app/Http/Controllers/RegionController.php:85-87 | `data -> rab` is rejected, while `data -> design`, `data -> data` and `completed -> data` pass |
| Validation.Value.Size | app/Http/Requests/StoreRegionRequest.php:28-30 | the size `max`/`min` compare is a string's length; a number's value only under a numeric rule, and otherwise a whole number's decimal length (1 for a single digit) |
| Validation.Digits | app/Http/Requests/StoreRegionRequest.php:28 | a natural number has at least one digit, and exactly one when it is below 10 |
| Validation.DecimalLength | app/Http/Requests/StoreRegionRequest.php:28 | an integer's decimal form has at least one character, and at least two (sign and digit) when negative |
| Validation.Failures | app/Http/Requests/StoreRegionRequest.php:26-31 | every failure of an attribute is one of its rules that is evaluated on the value and rejects it |
| Validation.FailuresGrow | app/Http/Requests/StoreRegionRequest.php:26-31 | the failures among the first n rules stay failures of the whole list: a later rule never cancels an earlier failure |
| Validation.FailuresEmpty | app/Http/Requests/StoreRegionRequest.php:26-31 | an attribute has no failure exactly when every one of its evaluated rules accepts the value |
| Validation.FirstFailure | app/Http/Requests/StoreRegionRequest.php:26-31 | the first evaluated rule that rejects the value is always a failure |
| Validation.RequiredStops | app/Http/Requests/StoreRegionRequest.php:27 | when a leading `required` fails, it is the attribute's only failure: no later rule runs |
| Validation.UniqueSkipped | app/Http/Requests/StoreRegionRequest.php:28 | a trailing `unique` is not a failure once an earlier rule of the attribute failed |
| Validation.Errors | app/Http/Requests/StoreRegionRequest.php:26-31 | every reported error is a (path, rule) pair whose rule belongs to the path, is evaluated on the path's value and rejects it |
| Validation.ErrorMembership | app/Http/Requests/StoreRegionRequest.php:26-31 | an error is reported exactly for a path of the rule set and one of that path's failures |
| Validation.ErrorsEmpty | app/Http/Requests/StoreRegionRequest.php:26-31 | no error is reported exactly when every evaluated rule of every path accepts its value |
| Validation.ValidatedValue | app/Http/Controllers/RegionController.php:38 | a value whose attribute is not an array attribute with rules on its entries, or that is null, is kept whole; a kept array never gains entries |
| Validation.ValidatedData | app/Http/Controllers/RegionController.php:38 | the validated data holds only present attributes that have rules, and every present attribute without rules on its entries is kept with its input value |
| Validation.Validate | app/Http/Controllers/RegionController.php:89-97 | success holds exactly when every evaluated rule passes, and then yields the validated data; failure carries a non-empty set of (path, rule) pairs, each a rule of that path that was evaluated and failed |
| Validation.FirstFailureReported | app/Http/Requests/StoreRegionRequest.php:26-31 | the first evaluated rule of an attribute that fails makes validation fail and is reported |
| Validation.OnlyRequiredReported | app/Http/Requests/StoreRegionRequest.php:27-30 | a failing leading `required` makes validation fail with `required` as that attribute's only error |
| Validation.UniqueNotReported | app/Http/Requests/StoreRegionRequest.php:28 | when an earlier rule of an attribute fails, validation fails with that rule and without the attribute's trailing `unique` |
| Validation.AllKept | app/Http/Controllers/RegionController.php:38 | when every input attribute has rules and none has rules on its entries, the validated data is the whole input |
| Validation.TrimmedAttribute | app/Http/Requests/StoreRegionRequest.php:39-51 | an array attribute with rules on its entries is kept exactly when one of those entries is present, and then holds exactly the present entries that have rules |
| Validation.KeptWhole | app/Http/Controllers/RegionController.php:38 | after success, a present attribute without rules on its entries is in the validated data with its input value |
| Validation.NoFailingRule | app/Http/Controllers/RegionController.php:89-97 | when every evaluated rule passes, validation succeeds with the validated data |
| Validation.PassedTop | app/Http/Controllers/RegionController.php:89-97 | after success, every evaluated rule of a top-level attribute accepts its value |
| RegionRequest.SelectedStage | app/Http/Requests/StoreRegionRequest.php:24 | the stage the switch reads is the `stage` input when present, and `data` otherwise |
| RegionRequest.PayloadRuleShape | app/Http/Requests/StoreRegionRequest.php:34-53 | every stage-specific rule sits under one of the four payload attributes, starts with `nullable` and is never `required` |
| RegionRequest.PayloadKeySelected | app/Http/Requests/StoreRegionRequest.php:34-53 | `boundaries` gets rules exactly for a `data` or `true` stage (PHP's loose switch), `design_data`, `rab_data` and `permits_data` exactly for their own stage; `completed` and any other value add none |
| RegionRequest.PayloadDisjointFromBase | app/Http/Requests/StoreRegionRequest.php:26-31 | the stage-specific rules never override the common ones, and the common rules are those of name, code, description and stage |
| RegionRequest.RulesFor | app/Http/Requests/StoreRegionRequest.php:22-56 | for every stage value the rules contain the four common entries, every stage-specific rule, and nothing else |
| RegionRequest.RulesForNested | app/Http/Requests/StoreRegionRequest.php:26-53 | only the payload attributes have rules on their entries |
| RegionRequest.RulesForFlat | app/Http/Requests/StoreRegionRequest.php:26-31 | name, code, description and stage have no rules on entries below them |
| RegionRequest.StagePayloadKeys | app/Http/Requests/StoreRegionRequest.php:35-42 | `data` adds exactly `boundaries`, `design` exactly `design_data` and its two keys, `completed` nothing |
| RegionRequest.LaterStagePayloadKeys | app/Http/Requests/StoreRegionRequest.php:43-52 | `rab` adds exactly `rab_data` and its two keys, `permits` exactly `permits_data` and its two keys |
| RegionRequest.AbsentStageSelectsData | app/Http/Requests/StoreRegionRequest.php:24-30 | without `stage` the rules are those of `data`, and the request fails with `stage.required` as the only error on `stage` |
| RegionRequest.MissingRequiredRejected | app/Http/Requests/StoreRegionRequest.php:26-31 | a request whose name, code or stage is absent, null, blank or an empty array fails with `required` on that field, and with no other error on it, whatever the stage |
| RegionRequest.UnknownStageRejected | app/Http/Requests/StoreRegionRequest.php:30 | a present stage other than the five names fails: with `in` when it is filled, with `required` and not `in` when it is null, blank or an empty array |
| RegionRequest.DuplicateCodeRejected | app/Http/Requests/StoreRegionRequest.php:28 | a code already in `regions.code` is rejected: a blank one with `required` and not `unique`, one of at most 50 characters with `unique`, a longer one with `max` and not `unique` |
| RegionRequest.CodeTooLongRejected | app/Http/Requests/StoreRegionRequest.php:28 | a code longer than 50 characters fails with `max`, and `unique` is not reported, taken or not |
| RegionRequest.NumericCodeRejected | app/Http/Requests/StoreRegionRequest.php:28 | a code sent as a whole number fails `string`, and `max:50` does not fire on it when its decimal form has at most 50 characters, whatever its value |
| RegionRequest.BudgetEstimateEntry | app/Http/Requests/StoreRegionRequest.php:45 | the `rab` rules give `rab_data.budget_estimate` the rules nullable, numeric, min:0 |
| RegionRequest.BudgetValueFails | app/Http/Requests/StoreRegionRequest.php:45 | a non-null budget is checked exactly when it is not a blank string; a non-number fails `numeric` and a negative number fails `min:0` |
| RegionRequest.BudgetEstimateRules | app/Http/Requests/StoreRegionRequest.php:43-46 | for a `rab` request, a non-blank non-number `rab_data.budget_estimate` fails with `numeric`, a negative number with `min`, and a blank string draws no error on it |
| RegionRequest.ValidatedStoreData | app/Http/Requests/StoreRegionRequest.php:26-31 | a validated creation request carries a stage name, a string name of at most 255 characters, a string code, and a null or string description |
| RegionRequest.ValidatedBaseData | app/Http/Requests/StoreRegionRequest.php:26-31 | the same for any rule set holding the common rules with none below them |
| RegionRequest.ValidatedStorePayload | app/Http/Requests/StoreRegionRequest.php:34-53 | a validated creation request carries a stage payload only for its own stage |
| RegionRequest.PayloadNested | app/Http/Requests/StoreRegionRequest.php:36-51 | for the stage that selects a payload key, the key has the rules nullable, array, and rules below it for exactly its two listed entries (none for `boundaries`) |
| RegionRequest.BoundariesNested | app/Http/Requests/StoreRegionRequest.php:35-37 | the `data` rules give `boundaries` nullable, array and nothing below it |
| RegionRequest.DesignNested | app/Http/Requests/StoreRegionRequest.php:38-42 | the `design` rules have entries below `design_data` for exactly `plan_file` and `technical_specs` |
| RegionRequest.RabNested | app/Http/Requests/StoreRegionRequest.php:43-47 | the `rab` rules have entries below `rab_data` for exactly `budget_estimate` and `cost_breakdown` |
| RegionRequest.PermitsNested | app/Http/Requests/StoreRegionRequest.php:48-52 | the `permits` rules have entries below `permits_data` for exactly `permits_required` and `applications_submitted` |
| RegionRequest.ValidatedPayload | app/Http/Requests/StoreRegionRequest.php:38-52 | a validated design, rab or permits payload is kept exactly when one of its two listed entries is present, and then holds exactly those present entries |
| RegionRequest.ValidatedBoundaries | app/Http/Requests/StoreRegionRequest.php:36 | a validated `boundaries` is kept as given |
| RegionRequest.CustomMessageKeys | app/Http/Requests/StoreRegionRequest.php:65-71 | the five custom messages are keyed `name.required`, `code.required`, `code.unique`, `stage.required`, `stage.in` |
| RegionRequest.CustomMessages | app/Http/Requests/StoreRegionRequest.php:65-71 | each of those five errors gets its custom text |
| RegionRequest.MessagesCovered | app/Http/Requests/StoreRegionRequest.php:63-72 | every message key belongs to one of those five errors |
| RegionRequest.CustomMessagesHaveRules | app/Http/Requests/StoreRegionRequest.php:26-31 | every custom message belongs to a rule present for every stage, so none is dead |
| RegionRequest.BaseRulesHaveMessages | app/Http/Requests/StoreRegionRequest.php:26-31 | every custom message belongs to a rule of any rule set holding the common rules |
| RegionController.Region.Create | app/Http/Controllers/RegionController.php:47 | a created region holds exactly the attributes given |
| RegionController.Store | app/Http/Controllers/RegionController.php:36-51 | creation fails exactly when validation fails, with its errors; a created region is valid (its stage is a stage name and its flags are FlagsFor(stage)) and holds the validated stage, name, code, description and trimmed payloads |
| RegionController.PayloadOf | app/Models/Region.php:78-83 | the `array` cast stores null as null and any other validated value as it is |
| RegionController.WithCode | app/Http/Controllers/RegionController.php:47 | after a creation the code is in `regions.code`, and every other column and code is kept |
| RegionController.CodeTakenAfterStore | app/Http/Controllers/RegionController.php:36-47 | once a creation request passes validation and is stored, a second request with the same code fails with `unique` on `code` |
| RegionController.InitialRulePasses | app/Http/Controllers/RegionController.php:36-38 | every evaluated rule accepts a request of a stage name, a non-blank name of at most 255 characters and a non-blank, untaken code of at most 50 |
| RegionController.InitialBaseRulePasses | app/Http/Requests/StoreRegionRequest.php:26-31 | the same for the common rules |
| RegionController.NameNotBlank | app/Http/Requests/StoreRegionRequest.php:30 | no stage name is blank |
| RegionController.AnyInitialStageAccepted | app/Http/Controllers/RegionController.php:36-47 | such a request, with any of the five stages, is accepted unchanged: creation has no ordering check |
| RegionController.InitialData | app/Http/Controllers/RegionController.php:38 | such a request's validated data is the request itself |
| RegionController.RequestedStage | app/Http/Controllers/RegionController.php:78 | the requested stage is the `stage` input when present, the stored stage otherwise |
| RegionController.CurrentIndex | app/Http/Controllers/RegionController.php:82-85 | the current index is the stored stage's position when it names a stage, and 0 otherwise (`false + 1` is 1) |
| RegionController.Rejected | app/Http/Controllers/RegionController.php:82-85 | the guard fires exactly for a string naming a stage whose index exceeds the current index plus one |
| RegionController.GuardRejectsSkips | app/Http/Controllers/RegionController.php:78-87 | the update guard fires exactly when the request carries a stage name more than one step ahead; with no stage it compares the current stage with itself and passes |
| RegionController.GuardOnStage | app/Http/Controllers/RegionController.php:82-85 | for a stored stage name the guard is `SkipsStage` of that stage |
| RegionController.UpdateRuleEntries | app/Http/Controllers/RegionController.php:89-97 | the update rules give `stage` the rules sometimes, in:… and `name` the rules sometimes, string, max:255, every rule is top-level and none is `required` |
| RegionController.UpdateRulesFlat | app/Http/Controllers/RegionController.php:89-97 | no update rule sits below an attribute |
| RegionController.ValidatedUpdateData | app/Http/Controllers/RegionController.php:89-97 | validated update data holds exactly the present attributes that have update rules, with their input values |
| RegionController.ValidatedUpdateValues | app/Http/Controllers/RegionController.php:90-96 | a validated stage is a stage name or a blank string, and a validated name is a string of at most 255 characters unless it is blank |
| RegionController.CheckUpdate | app/Http/Controllers/RegionController.php:78-97 | the result is the sequential-stages error exactly when the guard fires; it succeeds exactly when the guard passes and validation succeeds; an `Invalid` failure carries validation's errors; success keeps exactly the present attributes that have rules, with their values |
| RegionController.UpdateWithoutStage | app/Http/Controllers/RegionController.php:78 | an update without `stage` is never refused by the guard, and its validated data holds no stage |
| RegionController.UpdateToReachableStage | app/Http/Controllers/RegionController.php:85-100 | a request moving to a stage at most one step ahead is accepted with that stage |
| RegionController.StageOnlyValidates | app/Http/Controllers/RegionController.php:89-97 | a request carrying only a stage name or a blank stage passes the update rules unchanged |
| RegionController.StageOnlyData | app/Http/Controllers/RegionController.php:89-97 | such a request's validated data is the request itself |
| RegionController.StageOnlyRulePasses | app/Http/Controllers/RegionController.php:96 | every evaluated update rule accepts such a request |
| RegionController.UpdateSkippingRejected | app/Http/Controllers/RegionController.php:85-87 | a request jumping more than one stage ahead gets the sequential-stages error, whatever the stored string |
| RegionController.UpdateUnknownStage | app/Http/Controllers/RegionController.php:83-96 | a stage that is neither a stage name nor blank passes the guard but fails validation with `in` on `stage` |
| RegionController.UnknownStageFailsIn | app/Http/Controllers/RegionController.php:96 | the update rules reject such a stage with `in` |
| RegionController.UpdateBlankStage | app/Http/Controllers/RegionController.php:96-107 | a blank stage passes the guard and the rules and gives four false flags, but the update fails at the `stage` enum column |
| RegionController.UpdateResult | app/Http/Controllers/RegionController.php:76-107 | the outcome is CheckUpdate's, except that an accepted blank stage (and nothing else) is refused by the `stage` enum column; a successful outcome's stage is a stage name |
| RegionController.BlankNotName | app/Http/Controllers/RegionController.php:96 | a blank string is never a stage name |
| RegionController.WriteAttributes | app/Http/Controllers/RegionController.php:107 | each of name, description and the four payloads takes its new value when present and keeps its old one otherwise; stage and flags are untouched |
| RegionController.SetStage | app/Http/Controllers/RegionController.php:100-105 | the stage is set and the flags become FlagsFor(stage); every other attribute is kept |
| RegionController.Update | app/Http/Controllers/RegionController.php:76-111 | the result is UpdateResult of the stored stage; a refused update, by the guard, the rules or the database, leaves the region unchanged; an accepted one writes exactly the present attributes, sets the stage and flags only when a stage is present, and keeps a valid region valid |
| BillingAmount.BaseRate | app/Services/MikroTikService.php:107-114 | the package's rate from the table, or 200000 for an unknown or null package; always positive |
| BillingAmount.Limit | app/Services/MikroTikService.php:118-125 | the package's allowance in GB from the table, or 200 |
| BillingAmount.Amount | app/Services/MikroTikService.php:104-134 | the amount is at least the base rate, and equals it exactly when the usage in bytes is within limit * 2^30 |
| BillingAmount.GbComparison | app/Services/MikroTikService.php:117-127 | comparing usage in GB with the limit agrees with comparing bytes with limit * 2^30 |
| BillingAmount.OverageInBytes | app/Services/MikroTikService.php:127-131 | beyond the allowance, amount = base + (bytes - limit * 2^30) * 2000 / 2^30 |
| BillingAmount.PackageTable | app/Services/MikroTikService.php:107-125 | both tables name the same four packages, with rates 150000/250000/400000/750000 and allowances 100/250/500/1000 |
| BillingAmount.UnknownPackageDefaults | app/Services/MikroTikService.php:114-125 | a null or unlisted package is charged 200000 with 200 GB included |
| BillingAmount.StandardAt300Gb | app/Services/MikroTikService.php:127-131 | Standard 25Mbps at 300 GB costs 350000 |
| BillingAmount.AmountMonotone | app/Services/MikroTikService.php:104-134 | the amount never decreases as `total_bytes` grows |
| BillingAmount.OneMoreGb | app/Services/MikroTikService.php:127-131 | at or over the allowance, each further GB adds exactly 2000 |
| BillingRecords.FindKey | app/Services/MikroTikService.php:83-87 | the first row with the (customer, month) key, or none exactly when no row has it |
| BillingRecords.CountKey | app/Services/MikroTikService.php:83-87 | the number of rows with a key is zero exactly when no row has it |
| BillingRecords.OtherMonthsMembers | app/Services/MikroTikService.php:81-87 | the rows of other months are exactly the rows whose month differs |
| BillingRecords.Fill | app/Services/MikroTikService.php:88-93 | an updated row carries the new usage, report, amount and due date, and keeps its id, key, status and payment |
| BillingRecords.NewRecord | app/Services/MikroTikService.php:83-93 | a created row has the key and the new values, is `pending` and unpaid |
| BillingRecords.Upsert | app/Services/MikroTikService.php:83-94 | an upsert of a present key keeps the row count and the next id; of a missing key it appends one row with that key and advances the next id; every existing row keeps its key and place |
| BillingRecords.UpsertKeepsIds | app/Services/MikroTikService.php:83-94 | after an upsert, ids stay distinct and below the next id |
| BillingRecords.UpsertCount | app/Services/MikroTikService.php:83-94 | the key has one row after an upsert if it had none, and as many as before otherwise |
| BillingRecords.UpsertStores | app/Services/MikroTikService.php:83-94 | after an upsert the key's first row carries the new values; an existing row keeps its place, id, status and payment, and a missing one is created |
| BillingRecords.UpsertIdempotent | app/Services/MikroTikService.php:79-95 | repeating an upsert with the same values changes nothing, so a second sync in a month overwrites rather than duplicates |
| BillingRecords.UpsertKeepsOtherMonths | app/Services/MikroTikService.php:81-87 | an upsert leaves the rows of every other month as they were, in order |
| BillingRecords.UpsertKeepsOtherKeys | app/Services/MikroTikService.php:83-94 | an upsert adds at most one row, and every row of another key stays in place unchanged |
| BillingRecords.UniqueCount | app/Services/MikroTikService.php:83-87 | with unique keys, each key has at most one row |
| BillingRecords.UpsertKeepsUnique | app/Services/MikroTikService.php:79-95 | from unique keys, an upsert keeps keys unique and leaves exactly one row for its key |
| BillingRecords.UpsertKeepsKeys | app/Services/MikroTikService.php:83-94 | a key that has a row keeps one after any upsert |
| BillingRecords.BillingTable.Empty | app/Services/MikroTikService.php:83 | a new table is empty, with ids starting at 1 |
| BillingRecords.BillingTable.UpdateOrCreate | app/Services/MikroTikService.php:83-94 | the table becomes the upsert of its old state, ids stay valid, and the returned row is the key's first row and carries the new values |
| MikroTikService.Customer.Create | app/Models/Customer.php:54-74 | a customer holds exactly the attributes given |
| MikroTikService.HasUsername | app/Services/MikroTikService.php:19 | a username is usable only when present and non-empty, and every present username of two or more characters is usable (PHP treats only "" and "0" as false among strings) |
| MikroTikService.ChargeFor | app/Services/MikroTikService.php:88-93 | `usage_mb` times 2^20 is `total_bytes`, the amount is at least the base rate, with equality exactly within the allowance, the report is the fetched one and the due date is now + 30 days |
| MikroTikService.SyncCustomerUsage | app/Services/MikroTikService.php:17-40 | without a usable username (null, "" or "0") it returns nothing and changes nothing; otherwise it returns the fetched report, and stamps `last_usage_sync` with now exactly when the fetch succeeds |
| MikroTikService.UpdateBillingRecord | app/Services/MikroTikService.php:79-95 | the table becomes the upsert of the charge under (customer id, month); the returned row has that key, `usage_mb = total_bytes / 2^20`, the computed amount, due date now + 30 days and the report |
| MikroTikService.WithUsername | app/Services/MikroTikService.php:49 | the selected customers are all and only those with a non-null username |
| MikroTikService.WithUsernameMultiset | app/Services/MikroTikService.php:49 | each customer with a non-null username is selected exactly as often as it occurs, and no other customer is, so the selection's length is the number of such customers |
| MikroTikService.WithUsernameAppend | app/Services/MikroTikService.php:49 | selection splits over concatenation, so it keeps the table's order |
| MikroTikService.CountSynced | app/Services/MikroTikService.php:56-67 | the number of successes is at most the number of customers |
| MikroTikService.CountSyncedExtremes | app/Services/MikroTikService.php:56-67 | every customer succeeds exactly when each syncs, and none does exactly when none syncs |
| MikroTikService.SyncBilling | app/Services/MikroTikService.php:56-67 | the billing table after the loop keeps every row it had and gains at most one row per customer; the next id never decreases |
| MikroTikService.SyncKeepsRowKeys | app/Services/MikroTikService.php:56-67 | the loop never moves or rekeys a row that was already in the table |
| MikroTikService.SyncOne | app/Services/MikroTikService.php:57-66 | one turn of the loop succeeds exactly when the customer syncs, and then upserts its billing record; otherwise the table is unchanged |
| MikroTikService.SyncEach | app/Services/MikroTikService.php:56-67 | success counts the customers that sync, success + failed = number of customers, the table receives an upsert for exactly the successful customers in order, and each successful customer is stamped |
| MikroTikService.SyncAllCustomers | app/Services/MikroTikService.php:47-70 | total = number of customers with a non-null username = success + failed; the billing upserts are for exactly the successful ones; statuses are kept and only successful customers get `last_usage_sync` |
| MikroTikService.SyncedHaveRecords | app/Services/MikroTikService.php:59-63 | after a sync, every customer that synced has a billing row for the month |
| MikroTikService.SyncKeepsOtherMonths | app/Services/MikroTikService.php:81-87 | a sync leaves every other month's rows as they were, in order |
| MikroTikService.SyncKeepsUnique | app/Services/MikroTikService.php:56-67 | a sync keeps at most one row per customer and month, and adds no more rows than there are successes |
| MikroTikService.NoSyncNoBilling | app/Services/MikroTikService.php:64-66 | when no customer syncs, the billing table is unchanged |
| MikroTikService.ActionStatus | app/Services/MikroTikService.php:194-204 | an action sets a status exactly when it is `enable`, `disable` or `suspend` |
| MikroTikService.ActionStatusNames | app/Services/MikroTikService.php:195-203 | `enable`, `disable` and `suspend` store `active`, `inactive` and `suspended` |
| MikroTikService.ManageCustomerAccount | app/Services/MikroTikService.php:179-216 | returns true exactly when the username is usable; with no username nothing changes; otherwise the action's status is stored for the three known actions and kept for any other; `last_usage_sync` is never touched |

## Left out

- The router and `getMockUsageData`/`generateMacAddress` are not modelled. The report a fetch returns is an input, and a missing report stands for a failed fetch, which is the only failure `syncCustomerUsage` handles.
- Other exceptions are not modelled, such as a database error inside `manageCustomerAccount`. That path returns false.
- Logging (`Log::info`, `Log::error`) is left out because it has no effect on state.
- The clock is a parameter. `now()` is an integer count of seconds, and the `Y-m` month is a separate string parameter. Its derivation from `now` is not modelled.
- MikroTikService.SyncAllCustomers: one `now` and one `month` stand for every clock reading of the run, where the source reads the clock afresh for each customer (the `last_usage_sync` stamp, the billing month and the due date). So per-customer stamp times are not captured, nor is a run that crosses a month boundary and bills its later customers under the next month.
- MikroTikService.SyncKeepsOtherMonths: holds because the whole run uses one month; a run crossing a month boundary in the source writes rows under two months, which the model does not capture. The same frozen month underlies `MikroTikService.SyncedHaveRecords`.
- `addDays(30)` is modelled as `now + 30 * 86400` seconds, with no calendar or time-zone handling.
- MikroTikService.ChargeFor: amounts and `usage_mb` are exact rationals, not PHP floats. The `decimal:2` rounding applied when storing them is not modelled. PHP's float division of a byte count by 2^30 is exact below 2^53 bytes, so the comparison with the allowance agrees.
- The `billing_records` table has no database-level uniqueness. One row per (customer, month) is proved only for tables whose keys start out unique (`UpsertKeepsUnique`, `SyncKeepsUnique`).
- Customers and the table are separate objects. Customer rows are not stored in a table of their own, and only `status` and `last_usage_sync` are modelled as changing.
- Validation.Validate: only the rules these requests use are modelled (`required`, `sometimes`, `nullable`, `string`, `max`, `min`, `numeric`, `array`, `in`, `unique`), with paths of at most two levels and no `*` wildcards.
- Validation.Validate: the framework's input middleware (`TrimStrings`, `ConvertEmptyStringsToNull`) is not modelled; the validator sees the input as given. So a blank string skips every rule but `required`: a blank update stage passes validation and is then refused by the `stage` enum column (`UpdateBlankStage`); with that middleware it would arrive as null and fail `in`.
- Validation.Passes: numeric strings are not accepted by `numeric`, and `max`/`min` measure strings in characters (not bytes).
- Validation.Value.Size: without a numeric rule, a fractional number has no size, so `max`/`min` do not reject it; PHP would measure the length of its float string form. No attribute here reaches that case except a number sent for `name` or `code`, which fails `string` anyway.
- RegionRequest.BudgetValueFails: a numeric string such as `"100"` is reported as failing `numeric`, where Laravel accepts it (and `"-5"` fails `min:0`), because numeric strings are not modelled.
- RegionRequest.BudgetEstimateRules: the same: a non-blank numeric string budget draws `numeric` in the model, where Laravel accepts it, or reports `min` for a negative one.
- RegionController.CurrentIndex: the branch for a stored stage that is not a stage name follows the source (`false + 1` is 1), but no reachable row has such a stage: `Store` creates valid regions and `Update` keeps them valid.
- The `regions.name` column is `varchar(255)`; a blank update name longer than 255 characters skips `max:255` and is written as is (SQLite does not enforce the length).
- `in:` is modelled on strings. Laravel casts the value to a string first, and no number, boolean or null casts to a stage name, so a non-string stage fails `in` either way.
- Redirects, flash messages and `back()->withErrors` become a `Result` value. Inertia rendering, routes, authorisation and the other controllers are not modelled.
- Concurrent updates of one region or one billing row are not modelled.
