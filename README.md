# Appointment ingestion and reconciliation engine

A Dafny model of the engine behind a gym's appointment display board
(`server.js`). A calendar platform posts booking and cancellation events to
`/ghl-webhook`. The handler resolves each loosely shaped payload into one
canonical appointment through ordered fallback chains, then reconciles it
into an in-memory list of appointments keyed by id. `/api/appointments`
serves the appointments that have not ended, ascending by start time, and
the `/tv` page switches between the board and an ad according to the hour
and minute.

Modules, leaf to root:

- `Wrappers` (`wrappers.dfy`): `Option`, used for JavaScript's `undefined`.
- `JsText` (`text.dfy`): `toLowerCase` (ASCII letters) and `trim` (the ECMAScript whitespace and line-terminator set).
- `Duration` (`duration.dfy`): instants as integer milliseconds, the time codec and `getDurationMinutes` with `Math.round` spelled out.
- `FieldResolver` (`resolver.dfy`): the payload, JavaScript truthiness, the `||` chains for id, times and names, and the cancellation flag.
- `Appointments` (`appointments.dfy`): the record, the stale sweep `cleanupOldAppointments`, and `findIndex` as a loop (`FindIndex`) specified by a function (`IndexOf`).
- `Reconciliation` (`reconcile.dfy`): the handler's decision as a pure function, in two parts. `Reconcile` maps a swept store and a resolved event to a reply and the new store. `Ingest` is the sweep, the resolution and `Reconcile` together.
- `View` (`view.dfy`): the filter and the stable sort by start time behind `/api/appointments`.
- `Store` (`store.dfy`): the module-level `appointments` array, as a class with a `seq` field. Its methods `Cleanup`, `HandleWebhook` and `GetAppointments` update that field in place. Each is proved equal to the corresponding pure function.
- `Display` (`display.dfy`): the `showAds` rule of `updateMode`.
- `Scenarios` (`scenarios.dfy`): end-to-end runs, from an empty store, of booking, cancelling and querying.

Inputs the model takes:

- The current instant `now` is a parameter of every request.
- Hour and minute are parameters of the display rule.
- Timestamp parsing (`new Date(s)`) and formatting (`toISOString()`) form a `TimeCodec` the store is built with. Lemmas about synthesised times assume that formatting round-trips through parsing (`RoundTrips`).

Behaviour the model keeps from the code:

- The client-name sentinel is `"Ukendt klient"`.
- The sweep runs both on every webhook call (`server.js:54`) and on every query (`server.js:170`). The query then filters again (`server.js:174-178`). `View.UpcomingAfterSweep` shows that the second filter changes nothing.
- Suppose a start time is supplied but does not parse, and no end time is given. Then `new Date(NaN).toISOString()` throws a `RangeError`. The `catch` block answers 500, after the sweep has already run. The model has this as `Reply.InternalError`, with the swept store, both for cancellation placeholders (`server.js:109-111`) and for bookings (`server.js:134-135`).
- The handler computes the placeholder window twice, with identical expressions: once in the cancellation branch and once in the booking branch. The model computes it once, in `Reconciliation.Window`, which both `Reconciliation.Reconcile` and `Store.AppointmentStore.ApplyEvent` call.

## Model

| member | source | states |
|---|---|---|
| `JsText.Lower` | server.js:61 | lower-casing keeps the length and maps each character on its own; ASCII capitals move to their small letters, the rest stay |
| `JsText.LowerChar` | server.js:61 | an ASCII capital moves 32 code points up to its small letter; every other character is left as it is |
| `JsText.Trim` | server.js:61 | trimming never lengthens the value, and a non-empty result neither starts nor ends with whitespace |
| `JsText.TrimIsInfix` | server.js:61 | the trimmed value is the infix of the input bounded by whitespace on both sides, and it neither starts nor ends with whitespace |
| `JsText.TrimSurrounded` | server.js:61 | any whitespace around a word that does not start or end with whitespace is exactly what trimming removes |
| `JsText.LowerTrimCommute` | server.js:61 | lower-casing and trimming commute, since lower-casing leaves whitespace in place |
| `Duration.RoundMinutes` | server.js:20 | the result is the whole number of minutes nearest to the millisecond difference, a tie rounding up (`Math.round`) |
| `Duration.RoundMinutesUnique` | server.js:20 | no other whole number meets that nearest-minute condition |
| `Duration.DurationMinutes` | server.js:16-21 | undefined exactly when either timestamp fails to parse |
| `Duration.DurationIsNearestMinute` | server.js:16-21 | when both parse, the duration is within half a minute of end minus start, in either sign |
| `Duration.DurationWholeMinutes` | server.js:20 | a difference of exactly k minutes, negative k included, gives k |
| `Duration.DurationNegativePassesThrough` | server.js:20 | an end more than half a minute before the start yields a negative duration, not clamped |
| `FieldResolver.FirstTruthy` | server.js:68-72 | the `||` chain is undefined exactly when every operand is missing or empty; otherwise it is a non-empty operand of the chain |
| `FieldResolver.FirstTruthyAt` | server.js:68-72 | the first non-empty operand wins, whatever comes after it |
| `FieldResolver.CancelFlag` | server.js:61-65 | a missing or empty `isCancelled` never sets the flag |
| `FieldResolver.CancelFlagIff` | server.js:61-65 | the flag is set exactly when the trimmed value is `true`, `1` or `yes` in any letter case |
| `FieldResolver.CancelFlagPadded` | server.js:61-65 | an accepted word, in any letter case and with any whitespace around it, sets the flag |
| `FieldResolver.Resolve` | server.js:56-97 | the event is dropped exactly when all four id sources are missing or empty; a resolved event has a non-empty id, client name and coach name and carries the flag |
| `FieldResolver.IdPrecedence` | server.js:68-77 | the id comes from custom data, then the calendar block, then `contact_id`, then `contactId` |
| `FieldResolver.StartPrecedence` | server.js:80-84 | the start time comes from the calendar block, then custom data, then the top level; otherwise it is absent |
| `FieldResolver.EndPrecedence` | server.js:81-85 | the end time has the same precedence as the start time |
| `FieldResolver.ClientNameFallback` | server.js:87-92 | the client name comes from custom data, full name, email, contact id, then `"Ukendt klient"` |
| `FieldResolver.CoachNameFallback` | server.js:94-97 | the coach name comes from custom data, the user's first name, then `"Coach"` |
| `Appointments.Sweep` | server.js:26-32 | the sweep keeps no more records than before, and every record it keeps has an end that parses and is not before now |
| `Appointments.Live` | server.js:29-30 | the keep condition of the sweep: the end parses and is not before now; `Appointments.LiveEarlier`, `Appointments.SweepSingleton` and `Appointments.SweepMembers` state its behaviour |
| `Appointments.LiveEarlier` | server.js:29-30 | a record live at some instant was live at every earlier one, and one whose end does not parse is never live |
| `Appointments.SweepConcat` | server.js:28-31 | sweeping a concatenation concatenates the sweeps, so kept records keep their relative order |
| `Appointments.SweepSingleton` | server.js:30 | a record is kept exactly when it is live: one ending exactly at now stays; one ending a millisecond earlier goes, and so does one whose end does not parse |
| `Appointments.SweepMembers` | server.js:28-31 | a record is in the sweep exactly when it was in the store and is live |
| `Appointments.SweepIdempotent` | server.js:26-32 | sweeping twice at the same instant is sweeping once |
| `Appointments.SweepLater` | server.js:26-32 | a later sweep subsumes an earlier one |
| `Appointments.SweepAllLive` | server.js:26-32 | a store of live records is left unchanged |
| `Appointments.SweepKeepsUniqueIds` | server.js:26-32 | the sweep keeps ids unique |
| `Appointments.IndexOf` | server.js:100 | the result is -1 exactly when no record has the id; otherwise it is the first index holding the id |
| `Appointments.FindIndex` | server.js:100 | the linear search returns -1 when no record has the id and the first matching index otherwise, which agrees with `IndexOf` |
| `Reconciliation.Window` | server.js:130-137 | supplied times are kept; defaults are used only when a time is missing; there is no window exactly when no end is given and the start does not parse (`toISOString` throws) |
| `Reconciliation.WindowDefaults` | server.js:130-137 | with a round-tripping codec, a missing start becomes now and a missing end becomes start plus 30 minutes |
| `Reconciliation.NewRecord` | server.js:141-149 | the new record carries the event's id, names, window and the given status |
| `Reconciliation.Reconcile` | server.js:99-157 | never the missing-id reply; a 500 leaves the store unchanged; the reply is the cancellation reply exactly for a cancelling event that did not fail; the store keeps its length or grows by one record for an id it lacked; unless it failed, the event's id is present afterwards. `Reconciliation.CancelKnownId`, `Reconciliation.CancelUnknownId`, `Reconciliation.BookingUpserts`, `Reconciliation.ReconcileIdempotent` and `Reconciliation.ReconcileKeepsUniqueIds` state the rest |
| `Reconciliation.Ingest` | server.js:53-159 | the missing-id reply comes exactly when the payload resolves to no id, and then the store is the sweep of the old one; the store grows by at most one record |
| `Reconciliation.IngestWithoutId` | server.js:54-77 | an event without any id is answered `success:false`, and the store is what the sweep left |
| `Reconciliation.CancelKnownId` | server.js:103-106 | cancelling a known id changes only that record's status; the length, its times, names and duration, and every other record stay as they were |
| `Reconciliation.CancelUnknownId` | server.js:107-124 | cancelling an unseen id appends exactly one cancelled record with the resolved window and keeps the rest, or fails with 500 and changes nothing |
| `Reconciliation.CancelPlaceholderWindow` | server.js:108-120 | a placeholder without times runs from now to now plus 30 minutes and lasts 30 minutes |
| `Reconciliation.BookingUpserts` | server.js:130-157 | a booking replaces the first record with its id, or appends one if there is none; the result is active, has the event's window and names and a recomputed duration, and all other records are kept |
| `Reconciliation.ReconcileKeepsUniqueIds` | server.js:100-157 | reconciliation never creates a second record for an id |
| `Reconciliation.IngestKeepsUniqueIds` | server.js:53-159 | every webhook call keeps ids unique |
| `Reconciliation.ReconcileIdempotent` | server.js:100-157 | the same event reconciled twice at the same instant gives the same reply and store as once; repeated cancels are no-ops |
| `Reconciliation.ReconcileKeepsLive` | server.js:100-157 | a live event reconciled into a store of live records leaves only live records |
| `Reconciliation.Appends` | server.js:107-157 | an event for an id the store lacks, with a window, appends exactly its new record and answers as a cancellation or a booking |
| `Reconciliation.ReplayEnded` | server.js:53-159 | a record that has already ended is swept away before the replay, which appends it again in the same place |
| `Reconciliation.ReplayAfterSweep` | server.js:53-159 | replaying an event on the swept result of its first delivery gives the same outcome, except for a booking that overwrites a record other than the last with one that has already ended |
| `Reconciliation.IngestIdempotent` | server.js:53-159 | the same webhook delivered twice at the same instant gives the same reply and store as once, unless it is a booking that overwrites a record other than the last with one that has already ended |
| `View.Insert` | server.js:179 | inserting adds exactly one occurrence of the record |
| `View.SortByStart` | server.js:179 | the sort is a permutation of its input |
| `View.InsertSorted` | server.js:179 | inserting into a list ascending by start time keeps it ascending |
| `View.SortByStartSorted` | server.js:179 | when every start time parses, the sorted list ascends by start time |
| `View.StartsBefore` | server.js:179 | the sort's comparison: both starts parse and the first is earlier; `View.StartsBeforeStrict`, `View.InsertSorted` and `View.SortByStartSorted` state its behaviour |
| `View.StartsBeforeStrict` | server.js:179 | the comparison is a strict order: irreflexive, asymmetric and transitive |
| `View.Upcoming` | server.js:174-179 | the view is a permutation of the swept store and no longer than the store |
| `View.UpcomingSpec` | server.js:174-179 | the view holds exactly the live records of the store, each as often as the sweep keeps it, and ascends by start time when every live record's start parses |
| `View.UpcomingAfterSweep` | server.js:170-179 | after the sweep, the query's own filter removes nothing more |
| `View.UpcomingUniqueIds` | server.js:169-183 | no id appears twice in the view |
| `Store.AppointmentStore.constructor` | server.js:11 | the store starts empty |
| `Store.AppointmentStore.Cleanup` | server.js:26-32 | the new store is the sweep of the old one, and ids stay unique |
| `Store.AppointmentStore.HandleWebhook` | server.js:49-159 | the reply and the new store are those of `Ingest` on the old store, and ids stay unique |
| `Store.AppointmentStore.ApplyEvent` | server.js:100-157 | in-place cancel, placeholder append, replacement or append, as `Reconcile` states |
| `Store.AppointmentStore.GetAppointments` | server.js:169-183 | the store is swept; the result is `Upcoming` of the swept store, has only live records and has unique ids |
| `Display.ShowAds` | server.js:443-444 | ads show only from 06:00 to 21:59, and within those hours exactly in minutes 0 to 6 |
| `Display.AdsByMinuteOfDay` | server.js:443-444 | the same rule on a minute-of-day clock: minute 360 to 1319, first seven minutes of each hour |
| `Scenarios.CancellationIsCancel` | server.js:61-65 | `isCancelled = "true"` sets the flag |
| `Scenarios.BookingThenQuery` | server.js:49-183 | one 30-minute booking that has not ended yields a view of one active record lasting 30 minutes |
| `Scenarios.UnseenCancellationThenQuery` | server.js:103-126 | a cancellation for an unseen id yields a view of one cancelled record from now to now plus 30 minutes |
| `Scenarios.PastBookingThenQuery` | server.js:26-32 | a booking that ended an hour ago yields an empty view |
| `Scenarios.BookingThenCancellation` | server.js:99-127 | a booking and then its cancellation leave one cancelled record with the booked times |

## Left out

- HTTP plumbing is not modelled: Express, CORS, the JSON body parser, routing, status codes and `app.listen`. A reply is one of four `Reply` values.
- Logging (`console.log`, `console.error`) is not modelled. The only `catch` path modelled is the `RangeError` from an invalid date. Any other fault, a non-JSON body for one, is not.
- The HTML and CSS templates, the client-side `fetch`, the DOM rendering, the `"next up"` card and the `setInterval` polling are not modelled. Of `updateMode`, only the decision rule is.
- Real `Date` parsing and ISO-8601 formatting are not modelled: they are injected as `TimeCodec`. The `RangeError` that `toISOString` throws beyond ±8.64e15 ms is not modelled, and `format` is total.
- The source reads the clock separately at each `new Date()`. The model uses one `now` per request for the sweep, the placeholder start and the query filter.
- Floating point is not modelled: durations use integer milliseconds, and `Math.round` is written as a floor division. This agrees with the floating-point result for differences of any realistic size. The negative zero of `Math.round(-0.5)` becomes 0, which is what `res.json` sends anyway.
- `toLowerCase` is modelled for ASCII letters only. No non-ASCII character lower-cases to any character of `true`, `1` or `yes`, so the flag comes out the same.
- Payload values are modelled as strings only. A JSON boolean or number in `isCancelled` behaves like its string form under `String(x || "")`: `true`, `1`, and falsy `false`/`0`. Non-string ids and names are not modelled.
- The records are JavaScript objects, and `appointments[index].status = "cancelled"` mutates one of them. The model uses values; no other reference to a stored record survives a request.
- Sort order when a start time does not parse is not modelled faithfully. The comparator then yields `NaN`, which `Array.prototype.sort` reads as equal, and an inconsistent comparator leaves the engine's order implementation-defined. The model's stable insertion sort gives one such order. Ascending order is proved only when every start time parses. Stability is not proved.
- `Reconciliation.IngestIdempotent`: not stated for a booking that overwrites a record other than the last with one that has already ended (`Reconciliation.MovesOnReplay`). The second sweep removes that record and the replay appends it at the end, so the order changes. `Reconciliation.ReconcileIdempotent` holds without that condition.
