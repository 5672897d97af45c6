# Fleet status validator

This is a Dafny model of the decision core of a fleet-maintenance web
application's storage layer (`server/storage.ts`). It covers:

- **`validateVehicleStatus`**. From one vehicle, its alerts and its
  maintenance records it computes a status verdict. The status is
  `operational`, `maintenance_due` or `in_repair`, and the verdict also
  carries reasons, urgent issues, the last inspection date and the next
  oil-change date. When the stored status changed, it writes the new status
  back and, for a non-operational status, appends an alert.
- **`validateAllVehiclesStatus`**. It runs the validator over the whole
  fleet and then repeats the write-back against the row it read before
  validating.
- **`getPartsWithStatus`**. It derives each part's stock status.
- **`getDashboardStats`**. It counts vehicles by stored status, parts by
  stock level, and unread alerts.

The project has four modules.

- `Schema` (`schema.dfy`) holds the table rows and the `Option`/`Result`
  wrappers. Timestamps are integer milliseconds.
- `Validator` (`validator.dfy`) holds the rule engine.
  - `Decide` states the verdict in closed form, rule by rule.
  - `Evaluate` is the step-by-step computation of `validateVehicleStatus`
    with its mutable locals `status`, `reasons`, `urgentIssues`, `lastInspection` and
    `nextMaintenanceDue`. It is proved to return exactly `Decide`'s verdict.
  - Lemmas state each rule's effect on the verdict.
- `Storage` (`storage.dfy`) holds the store.
  - `StoreState` is the store as a value. Functions over it state what each
    operation does: `ValidateInStore` for one validation and `SweepFrom` for
    the fleet sweep.
  - The class `Store` holds the same tables as fields and performs the
    operations in place. Each of its methods is proved to end in the state
    those functions give.
- `Dashboard` (`dashboard.dfy`) holds the two read-only views over a
  snapshot of the tables.

"Now" is the parameter `now`, in milliseconds. Every "more than N days"
comparison is done exactly in integers, as `now - t > N * 86400000`.

Behaviours of the code worth knowing:

- **The major-maintenance rules take precedence over a recent repair.**
  The interval rules and the no-history rule assign `maintenance_due`
  without looking at the current status (`server/storage.ts:362`, `370`,
  `376`, `381`), after the repair rule has run at line 345. The mileage rule
  and the urgent-issue override act only on an `operational` status (lines
  392 and 400).
- **The no-history rule looks only at major records.** It fires when the
  vehicle has no `vidange`, `revision` or `controle_technique` record, even
  if it has other records such as a recent `reparation`.
- **The missing-date sort key is 0.** A record without `completedAt` sorts
  as timestamp 0, since `new Date(null)` is the epoch. The sorts are stable,
  so among records with equal keys the first one in store order wins.
- **A second validation is not fully idempotent.** It keeps the status,
  reasons and dates, and it writes nothing. When the first run created an
  urgent alert, the second run lists that alert's message among its urgent
  issues.
- **The sweep writes twice.** Every vehicle whose status changed gets its
  status written twice. If the new status is not operational, it also gets
  two identical alerts with consecutive ids.
- **The dashboard part counts may not add up.** A part with negative stock
  at or under its threshold is counted nowhere. A part with zero stock and a
  negative threshold is counted both in stock and out of stock. The three
  counters add up to the number of parts, less the first kind, plus the
  second kind. So they are guaranteed to add up when there are no such
  parts. They also add up when the two kinds are equally many and cancel
  out.

## Model

| member | source | states |
|---|---|---|
| Validator.Evaluate | server/storage.ts:318-407 | the rule sequence, run on mutable locals, returns exactly the verdict `Decide` specifies |
| Validator.CheckRecentRepair | server/storage.ts:333-348 | `lastInspection` is the date of the latest dated record; `in_repair` and the repair reason are set exactly when that record is a repair under a day old |
| Validator.ApplyMajorRules | server/storage.ts:350-384 | the interval rules for the latest major record, or the no-history rule: the resulting status, the appended reasons and urgent issues, and the next due date |
| Validator.ApplyMileageRules | server/storage.ts:386-407 | a non-operational status is kept; an operational one becomes `maintenance_due` over 200000 km or with urgent issues; the mileage reason is appended; the all-clear reason is added only to an operational verdict with no reason |
| Validator.UrgentAlertMessagesExact | server/storage.ts:325-331 | a message is among the alert-derived urgent issues exactly when some unread `urgent` or `high` alert carries it |
| Validator.Newest | server/storage.ts:334-336 | the first element of the descending sort exists exactly when the list is non-empty, and it has the maximal key |
| Validator.NewestIsFirstLatest | server/storage.ts:351-353 | with a stable sort, the record picked is the first one in store order among those with the maximal key |
| Validator.DatedMembers | server/storage.ts:335 | the date filter keeps exactly the records that have a completion date |
| Validator.DatedAppend | server/storage.ts:335 | the date filter keeps store order: filtering a concatenation concatenates the filtered parts |
| Validator.MajorRecordsMembers | server/storage.ts:352 | the type filter keeps exactly the `vidange`, `revision` and `controle_technique` records |
| Validator.MajorRecordsAppend | server/storage.ts:352 | the type filter keeps store order: filtering a concatenation concatenates the filtered parts |
| Validator.LastRecordIsFirstLatest | server/storage.ts:334-336 | `recentMaintenance` is the dated record with the latest date that comes first in the vehicle's history among those with that date |
| Validator.LastMajorIsFirstLatest | server/storage.ts:351-353 | `lastMajorMaintenance` is the major record with the latest sort key that comes first in the vehicle's history among those with that key |
| Validator.VerdictInvariants | server/storage.ts:325-407 | the alert messages come first among the urgent issues; an operational verdict has no urgent issue and at least one reason; `in_repair` only follows a recent repair; with no major record the status is `maintenance_due` with the no-history reason and issue, whatever the mileage, alerts or repairs |
| Validator.LastInspectionRule | server/storage.ts:334-339 | `lastInspection` is absent exactly when no record has a date; otherwise it is some record's date, and no dated record is later |
| Validator.RecentRepairRule | server/storage.ts:338-384 | the status is `in_repair` exactly when the latest dated record is a repair under a day old and no major-maintenance rule fires; the first reason is the repair reason exactly when there is such a repair |
| Validator.IntervalRules | server/storage.ts:355-378 | an oil change over 180 days old, or an inspection or service over 365 days old, gives `maintenance_due` with its reason; only the oil change sets the next due date, 180 days after it; the urgent issues are the urgent alert messages followed by the inspection issue exactly when the inspection has expired, and nothing else; an undated record fires the oil-change rule alone |
| Validator.MileageRules | server/storage.ts:386-397 | the status is the zero-mileage status, raised to `maintenance_due` only when it was operational and the mileage is over 200000; the high-mileage reason is present exactly over 200000 km and the moderate one exactly in (100000, 200000] |
| Validator.UrgentAlertsOnlyEscalate | server/storage.ts:399-402 | more urgent alerts leave a non-operational verdict unchanged, apart from the alert messages at the head of the urgent issues |
| Validator.SameMileageSameVerdict | server/storage.ts:318-407 | the verdict reads no field of the vehicle except its mileage; in particular it does not read the stored status |
| Storage.Lookup | server/storage.ts:130-133 | `getVehicle` finds a row with the id exactly when one exists |
| Storage.AlertsOfMembers | server/storage.ts:286-288 | `getAlertsByVehicle` returns exactly the alerts of that vehicle |
| Storage.AlertsOfAppend | server/storage.ts:286-288 | the alerts of a vehicle in a concatenation are the alerts of each part, in order |
| Storage.RecordsOf | server/storage.ts:240-242 | `getMaintenanceRecordsByVehicle` returns exactly the records of that vehicle |
| Storage.SetStatus | server/storage.ts:159-166 | the update changes the status of exactly the rows with the id, and nothing else |
| Storage.LookupSetStatus | server/storage.ts:159-166 | after the update, the vehicle is found with its new status |
| Storage.StatusAlertShape | server/storage.ts:414-420 | the alert is `repair_needed` exactly for `in_repair`; it is `urgent` exactly when there are urgent issues, `medium` otherwise; its message is the plate and the joined reasons |
| Storage.ValidateInStore | server/storage.ts:309-313 | an unknown vehicle id fails, and the store is left unchanged |
| Storage.ValidateWriteBack | server/storage.ts:409-422 | the verdict comes from this vehicle's alerts and records; only the rows with this id change, and only when the stored status differs; parts and records are untouched; exactly one alert is appended, with the next serial id, exactly when the stored status changed to a non-operational one, and the id counter advances by one with it |
| Storage.ValidateTwiceIsStable | server/storage.ts:309-431 | a second validation with the same `now` writes nothing and keeps status, reasons and dates; its urgent issues gain only the message of the urgent alert the first run created, if any |
| Storage.WriteBackTwice | server/storage.ts:436-452 | repeating the write-back against the row read before the validation writes the status twice and appends the same alert twice, with consecutive ids |
| Storage.SweepOutcome | server/storage.ts:433-454 | over distinct ids the sweep never aborts; every vehicle gets the status its verdict has against the store as it was before the sweep; parts and records are untouched |
| Storage.SweptAlertsOf | server/storage.ts:433-454 | after the sweep, each vehicle's alerts are its old ones plus two identical alerts when its status degraded, and none otherwise |
| Storage.Store.UpdateVehicleStatus | server/storage.ts:159-166 | the status of the rows with the id is updated in place |
| Storage.Store.CreateAlert | server/storage.ts:290-293 | one unread alert with the next serial id is appended |
| Storage.Store.WriteBackVerdict | server/storage.ts:409-422 | the store ends as the write-back function states |
| Storage.Store.ValidateVehicleStatus | server/storage.ts:309-431 | the store and the result are exactly those of `ValidateInStore` |
| Storage.Store.ValidateAllVehiclesStatus | server/storage.ts:433-454 | the loop ends in the state and outcome of `SweepFrom`, which is the store `Swept` with no failure |
| Dashboard.DeriveStatus | server/storage.ts:182 | `out_of_stock` exactly at zero stock; `low_stock` exactly for a non-zero stock at or under the threshold; `in_stock` otherwise |
| Dashboard.PartsWithStatus | server/storage.ts:178-184 | every part is kept, in order and unchanged, with its derived status |
| Dashboard.GetDashboardStats | server/storage.ts:457-483 | the totals are the table sizes; the status counters never exceed the fleet; the out-of-stock and unread counters are bounded by their tables |
| Dashboard.StatusCountsDisjoint | server/storage.ts:474-476 | the three status counters add up to the vehicles with one of the three known statuses |
| Dashboard.VehicleCountsCoverFleet | server/storage.ts:473-476 | the status counters add up to the fleet exactly when every stored status is one of the three |
| Dashboard.SweptFleetIsCounted | server/storage.ts:433-454 | a sweep over distinct ids never aborts, and afterwards the three status counters add up to the fleet |
| Dashboard.StockCountersMatchStatus | server/storage.ts:478-480 | a part's dashboard counters agree with its derived status exactly when it is not negative at or under its threshold, and not empty with a negative threshold |
| Dashboard.StockCountersAgree | server/storage.ts:477-480 | when every part is consistent, the stock counters equal the numbers of parts shown in each status and add up to the part total |
| Dashboard.StockCountersTotal | server/storage.ts:477-480 | the stock counters add up to the number of parts, less the parts counted nowhere, plus the parts counted twice; they equal the total exactly when the two kinds are equally many |
| Dashboard.MiscountsCancel | server/storage.ts:477-480 | one uncounted and one double-counted part cancel out: the counters add up to the total although neither part is consistent |
| Dashboard.NegativeStockIsUncounted | server/storage.ts:478-480 | a part with stock -1 and threshold 0 is in no counter, though it is shown as low |
| Dashboard.NegativeThresholdIsCountedTwice | server/storage.ts:478-480 | a part with stock 0 and threshold -1 is counted both in stock and out of stock |

## Left out

- Database access and the `async`/`Promise` plumbing are replaced by an in-memory store of sequences. Rows keep the order the queries return them in.
- Concurrency is not modelled. Each validation and each sweep runs atomically.
- Sample-data seeding (`initializeSampleData`) is not modelled.
- The wall clock `Date.now()` is the parameter `now`.
- Validator.NextDue: `setDate(getDate() + 180)` is modelled as adding 180 × 86400000 ms, so local-time and daylight-saving shifts are ignored.
- Alert ids are modelled as a serial counter `nextAlertId`. The `createdAt` timestamps of rows are not modelled.
- Storage.Store.ValidateAllVehiclesStatus: its failure branch cannot be reached, since the ids of the table are distinct and were just read. The abort path exists only in `SweepFrom`.
- The other create, read, update and delete methods of the storage class are not modelled, and neither is the update of fields other than `status`.
- The HTTP routes, the chat endpoint and the React pages are presentation and are not modelled.
- The Zod and Drizzle schema declarations are used only for field shapes: status, type and priority stay free text.
