# Sobriety streak and daily activity log — a Dafny model

This project models the two pieces of domain logic in the sobriety-support
backend:

- **The streak and milestone engine** (`server/utils/streak.ts`).
  `calculateSoberDays` counts the whole days from a sobriety start date to
  today. Both dates are taken at UTC midnight of their local calendar dates.
  The count is 0 without a start date and 0 for a start date in the future.
  `getMilestones` filters a fixed catalogue of six thresholds
  (1, 7, 30, 90, 180 and 365 days).
- **The daily activity log** (`server/controllers/activityController.ts`,
  with the record and its unique index from `server/models/Activity.ts`).
  `getStartOfDayUTC` truncates an instant to its UTC midnight, the day key.
  `logActivity` validates the activity type and matches it case-insensitively
  against six types. It builds one update document: `$inc` of the water
  counter, an overwrite of a gauge (sleep, meditation or exercise, with the
  defaults 8, 10 and 30 when the value is not a number `>= 0`), or a
  check-in or check-out stamp. It applies that document as one upsert keyed by
  (user, day key). `getActivityLog` returns today's record, or an all-zero
  record with no id that is never stored.

Modules:

- `EcmaTime` (`ecma_time.dfy`) is the time-value model of section 21.4.1 of
  ECMA-262. A time value is an integer count of milliseconds. Every day is
  exactly 86,400,000 ms long. The module defines `Day`, `TimeWithinDay`,
  `DayFromYear` (the standard's closed form), `MakeDay` and `Date.UTC`.
  `Date.UTC` reads a year 0..99 as 1900..1999, and the model keeps that rule.
  The module also proves that day numbers follow the calendar order, and that
  consecutive dates have consecutive day numbers.
- `Streak` (`streak.dfy`) models `streak.ts`.
- `ActivityModel` (`activity_model.dfy`) models `Activity.ts`. It holds the
  record datatype, the schema defaults and the uniqueness invariant. The
  collection is a class whose `records` map is keyed by (userId, date). Its
  method `FindOneAndUpsert` is Mongoose's atomic `findOneAndUpdate` with
  `upsert: true` and `setDefaultsOnInsert: true`.
- `ActivityController` (`activity_controller.dfy`) models
  `activityController.ts`. `LogActivity` changes the collection in place.
  `GetActivityLog` only reads it.
- `Wrappers` (`wrappers.dfy`) holds `Option` and `Result`.

Inputs that the source reads from the environment are parameters here:

- "Today" for the streak is a calendar triple. It stands for what the
  local-time getters `getFullYear`, `getMonth` and `getDate` return.
- `logActivity` reads the clock twice. Line 32 reads it for the day key, and
  line 61 or 65 reads it again for the check-in or check-out stamp.
  `LogActivity` takes these two reads as `keyClock` and `eventClock`.
  `CheckInWithinDay` states when the stamp lies inside the record's day.
- The request body's `activityType` and `value` are JSON values (`JsonValue`).
  The falsy ones (absent, `null`, `false`, `0`, `""`) give "Activity type is
  required.". A truthy value that is not a string has no `toLowerCase`. The
  resulting `TypeError` is caught and answered with status 500, which the
  model names `ServerError`.

Notes on the source:

- The schema at `server/models/Activity.ts:12-21` declares only `userId`,
  `date` and the four numeric fields. It does not declare `checkInTime` or
  `checkOutTime`. Its only option is `timestamps: true`, and nothing in the
  server turns Mongoose's strict mode off. Strict mode drops undeclared paths
  from an update. So, as written, a check-in or check-out only creates or
  touches the day's record and stores no stamp. The collection model has a
  flag `stampsDeclared`. It is false for the schema as written, and the
  model then drops the stamp. It is true for a schema that declares the two
  fields, and the model then stores the stamp. See "## Findings".
- `Date.UTC(y, m, d)` reads a year 0..99 as 1900 + y. A start date in years
  0..99 is therefore counted from 1900..1999 (`SoberDaysTwoDigitYear`). The
  calendar lemmas assume years outside 0..99.

## Model

| member | source | states |
|---|---|---|
| `EcmaTime.DateUtc` | server/utils/streak.ts:28-29 | `Date.UTC(y, m, d)` is a UTC midnight, and its day is `MakeDay` of the year as Date.UTC reads it (0..99 become 1900..1999) |
| `EcmaTime.DayNumberOrder` | server/utils/streak.ts:32 | for valid calendar dates, one date is earlier than another iff its day number is smaller, and equal dates have equal day numbers, so comparing the two midnights compares calendar dates |
| `EcmaTime.DayNumberNextDay` | server/utils/streak.ts:36-38 | the day after a valid date has a day number exactly one larger, across month and year ends and leap days |
| `EcmaTime.DateUtcDayNumber` | server/utils/streak.ts:28-29 | outside years 0..99, `Date.UTC` of a calendar triple is its calendar day number times one day of milliseconds |
| `Streak.SoberDays` | server/utils/streak.ts:23-43 | the streak is never negative, and it is 0 when there is no start date |
| `Streak.SoberDaysIsDayDifference` | server/utils/streak.ts:28-42 | the streak is 0 when the start's UTC day is after today's, and otherwise exactly today's UTC day number minus the start's, so `Math.abs` and `Math.floor` change nothing |
| `Streak.SoberDaysCountsCalendarDays` | server/utils/streak.ts:28-42 | for valid dates, a start after today gives 0, any other start gives the calendar days elapsed, and the streak is positive iff the start is strictly before today |
| `Streak.SoberDaysSameDay` | server/utils/streak.ts:36-42 | a start date equal to today gives 0 |
| `Streak.SoberDaysYesterday` | server/utils/streak.ts:36-42 | a start date one calendar day before today gives 1 |
| `Streak.SoberDaysGrowsDaily` | server/utils/streak.ts:28-42 | once the start is not in the future, each following calendar day adds exactly one to the streak |
| `Streak.SoberDaysTwoDigitYear` | server/utils/streak.ts:28 | a start in years 0..99 gives the same streak as the same date in 1900..1999 |
| `Streak.MilestonesCatalogue` | server/utils/streak.ts:8-16 | the catalogue has six entries with thresholds 1, 7, 30, 90, 180 and 365, strictly ascending |
| `Streak.Reached` | server/utils/streak.ts:52 | the filter never returns more entries than it is given; which entries it keeps, and in what order, is stated by `ReachedMembers` and `ReachedIsPrefix` |
| `Streak.ReachedMembers` | server/utils/streak.ts:52 | the filter keeps exactly the entries whose threshold is at most the sober days |
| `Streak.ReachedIsPrefix` | server/utils/streak.ts:51-53 | over a strictly ascending list the filter returns a prefix of it, and entry i is kept iff its threshold is at most the sober days |
| `Streak.GetMilestones` | server/utils/streak.ts:51-53 | `getMilestones(n)` is the prefix of the catalogue holding exactly the entries with `days <= n`, in catalogue order |
| `Streak.GetMilestonesMonotone` | server/utils/streak.ts:51-53 | `n <= m` implies `getMilestones(n)` is a prefix of `getMilestones(m)` |
| `Streak.GetMilestonesNone` | server/utils/streak.ts:8-16 | fewer than one sober day gives no milestone |
| `Streak.GetMilestonesAll` | server/utils/streak.ts:8-16 | 365 days or more give the whole catalogue in order |
| `Streak.GetMilestonesTwentyNine` | server/utils/streak.ts:8-16 | 29 days give exactly "First Day" and "One Week" |
| `Streak.GetMilestonesThirty` | server/utils/streak.ts:8-16 | 30 days give exactly "First Day", "One Week" and "One Month" |
| `ActivityModel.NewRecord` | server/models/Activity.ts:12-21 | an inserted record carries its id, user and date, and has all four numeric fields at 0 and no stamps |
| `ActivityModel.ApplyUpdate` | server/controllers/activityController.ts:76-80 | an update never changes a record's id, user or date, and keeps every numeric field non-negative when the update's value is non-negative |
| `ActivityModel.ApplyToSchema` | server/models/Activity.ts:12-21 | an update never changes the id or key; a stamp update leaves the record as it was when the schema does not declare the stamps, and any other update is applied in full |
| `ActivityModel.Upserted` | server/controllers/activityController.ts:76-80 | the upserted record keeps the stored record's id and key, or carries the fresh id and the requested key when none was stored; a stamp update on a new day under the schema as written yields exactly the default record |
| `ActivityModel.AtMostOnePerKey` | server/models/Activity.ts:25 | under the unique-index invariant, two stored records never share a (userId, date) pair |
| `ActivityModel.ActivityCollection.FindOneAndUpsert` | server/controllers/activityController.ts:76-80 | one atomic upsert: the record under the key becomes `Upserted` of the old map, so it is updated, or a default record with a fresh id is inserted and updated; the id counter advances only on insert; no other key changes; ids stay distinct and every record stays under its own key |
| `ActivityController.StartOfDayUtc` | server/controllers/activityController.ts:13-18 | the day key is a UTC midnight, at most t, and less than one day before t |
| `ActivityController.StartOfDayUnique` | server/controllers/activityController.ts:13-18 | the day key is the only UTC midnight in the day ending at t |
| `ActivityController.StartOfDayIdempotent` | server/controllers/activityController.ts:13-18 | normalizing a day key again returns it unchanged |
| `ActivityController.SameDayKey` | server/controllers/activityController.ts:13-18 | two instants get the same day key iff they fall on the same UTC day |
| `ActivityController.ToLower` | server/controllers/activityController.ts:42 | lower-casing keeps the length and maps each character on its own |
| `ActivityController.ToLowerIdempotent` | server/controllers/activityController.ts:42 | lower-casing a lower-cased string changes nothing |
| `ActivityController.ParseKind` | server/controllers/activityController.ts:42-70 | the switch selects a kind only when the lower-cased string is that kind's name, and selects none only when it is no kind's name |
| `ActivityController.ParseKindIgnoresCase` | server/controllers/activityController.ts:42-70 | a string selects an activity type iff it lower-cases to that type's name, and its lower-cased form selects the same type |
| `ActivityController.GaugeValue` | server/controllers/activityController.ts:47-58 | a gauge takes the body's value when it is a number `>= 0`, and the default otherwise |
| `ActivityController.BuildUpdate` | server/controllers/activityController.ts:35-70 | a falsy type is "required", a truthy non-string type is a server error, an unknown string is "invalid", and each is exactly so; an accepted update never carries a negative gauge |
| `ActivityController.LogActivity` | server/controllers/activityController.ts:26-93 | an error leaves the collection unchanged; otherwise exactly the record under (user, today's day key) becomes the upsert of the built update under the collection's schema, it is returned, the id counter advances only on insert, and the invariants and day keys are kept |
| `ActivityController.GetActivityLog` | server/controllers/activityController.ts:100-135 | returns the stored record for (user, today's day key) when there is one; otherwise a record with no id, that key and all defaults; nothing is stored |
| `ActivityController.ZeroRecord` | server/controllers/activityController.ts:110-126 | the fallback has no id, the requested user and day, and all fields at their defaults |
| `ActivityController.ZeroRecordIsUnsavedDefault` | server/controllers/activityController.ts:110-126 | the fallback equals the record an upsert would insert, except that it has no id |
| `ActivityController.RepeatedWater` | server/controllers/activityController.ts:43-45 | n water updates add exactly n glasses and change no other field |
| `ActivityController.WaterOnFreshDay` | server/controllers/activityController.ts:43-80 | n water events on a day with no record give `waterGlasses == n`, with every other field at its default |
| `ActivityController.UpdateEffect` | server/controllers/activityController.ts:42-70 | each accepted type changes only its own field: water adds one glass, a gauge takes the value or its default 8/10/30, and a stamp takes the event clock (this is the update document; `ApplyToSchema` says when the schema drops a stamp) |
| `ActivityController.OverwriteLastWins` | server/controllers/activityController.ts:47-66 | a gauge or stamp update applied twice equals applying it once, and a second update of the same field replaces the first |
| `ActivityController.CheckInWithinDay` | server/controllers/activityController.ts:59-62 | with a schema that declares the stamps, a check-in upsert stores the event clock, and when both clock reads fall on one UTC day the stamp lies within the record's day |
| `ActivityController.StampDroppedAsWritten` | server/models/Activity.ts:12-21 | with the schema as written, a check-in or check-out upsert returns the stored record unchanged, or on a new day the default record with no stamps |
| `ActivityController.CheckInAccepted` | server/controllers/activityController.ts:59-62 | "checkin" builds an update that sets the check-in time to the event clock |
| `ActivityController.CheckInAsWritten` | server/controllers/activityController.ts:59-80 | a check-in on an empty collection with the schema as written stores one record and returns no stamp |
| `ActivityController.CheckInWithDeclaredStamps` | server/controllers/activityController.ts:59-80 | the same check-in with a schema that declares the stamps stores one record carrying the clock |
| `ActivityController.BogusTypeRejected` | server/controllers/activityController.ts:67-69 | the type "bogus" is rejected as invalid whatever the value |
| `ActivityController.NegativeSleepDefaults` | server/controllers/activityController.ts:47-50 | sleep with value -1 sets 8 hours |
| `ActivityController.UpperCaseWater` | server/controllers/activityController.ts:42-45 | "WATER" is accepted as water |
| `ActivityController.ThreeWaterEvents` | server/controllers/activityController.ts:43-80 | three water events on an empty collection leave exactly one record, with three glasses |

## Findings

| source | as written | input that shows it | evidently intended | confidence | as-written member | corrected member |
|---|---|---|---|---|---|---|
| server/models/Activity.ts:12-21 | the schema does not declare `checkInTime` or `checkOutTime`, so Mongoose's default strict mode drops the update `{ checkInTime: new Date() }` built at activityController.ts:61 and 65 | `POST /api/activity` with body `{ "activityType": "checkin" }` on a day with no record: the response is the default record with no `checkInTime` | the check-in or check-out time is stored on the day's record | medium, not executed; it rests on Mongoose's documented strict-mode default | `ActivityController.CheckInAsWritten` (with `StampDroppedAsWritten`) | `ActivityController.CheckInWithDeclaredStamps` (with `CheckInWithinDay`) |

## Left out

- Store failures are not modelled. This covers the `catch` blocks and the
  Mongoose `ValidationError` answer (`activityController.ts:85-92` and
  `131-134`). The upsert is one atomic map update, so concurrency is not
  modelled either.
- The `createdAt` and `updatedAt` timestamps that `timestamps: true` adds are
  not modelled. They are set by Mongoose and are not read by this code.
- Invalid `Date` objects and time values beyond ±8.64e15 ms are not modelled.
  Both make the source compute NaN.
- `ActivityController.GaugeValue`: a body number that overflows to ±Infinity
  (such as `1e400`, which `JSON.parse` reads as Infinity) is not modelled,
  because `JsonValue.Num` holds a finite real. In the source, +Infinity
  passes the `>= 0` test and is stored, and -Infinity takes the default.
  `JSON.parse` cannot produce NaN.
- `ActivityController.LowerChar` models `toLowerCase` exactly only for the
  characters whose lower-case form is an ASCII letter. Other characters are
  kept, which cannot change the result of the dispatch.
- The local time-zone offset behind `getFullYear`, `getMonth` and `getDate`
  is not modelled. The calendar triple is the input.
- `Streak.SoberDays`: the start date is an `Option<CivilDate>`. Every `Date`
  object is truthy, so only an absent start date takes the falsy path.
- The dashboard's call `user.sobrietyStartDate ? calculateSoberDays(...) : 0`
  (`server/controllers/dashboardController.ts:26`) is HTTP glue. It is not
  modelled beyond `SoberDays(None, today) == 0`.
- Authentication, the `userId` the auth middleware supplies, HTTP status
  codes and JSON serialisation are not modelled. The user id is a parameter.
