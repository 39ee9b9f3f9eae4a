# A verified model of the GTFS engine

This Dafny project models the data engine of the transit API: the import of GTFS schedules, the
GTFS-Realtime overlay, the departure and stop queries, and the refresh cycle that publishes all of it.
It proves what the engine promises. `dafny verify dfyconfig.toml` checks everything (Dafny 4.11).

## How the model is built

- Tables are maps and sets keyed by their primary keys. `INSERT OR REPLACE` is an upsert,
  `INSERT OR IGNORE` a union, and a plain `INSERT` fails on a key already present.
- A CSV row maps column names to optional texts. A row shorter than the header holds no value in its
  last columns, and trimming such a value raises: the model fails the import there, as the code does.
- Dates are days of the Gregorian calendar. `Calendar` proves that the stored ISO texts carry the same
  equality and order, so a stored text is represented by its day.
- Python code that updates dicts, sets, tables or objects in loops is a method with loop invariants,
  proved against a specification function; pure code is functions and lemmas.
- A query reads row lists in an arbitrary order; only primary keys are assumed of them.
- `PRAGMA foreign_keys` is on: a stop row needs its provider's row, or its INSERT raises. No provider row
  is ever deleted.
- What the outside world answers in a refresh cycle (URLs, archives, messages, exceptions in a worker, disk errors)
  is a parameter, so contracts say exactly what follows from which answer. The clock, row order and which
  task runs next are nondeterministic choices, so contracts hold for all of them.

| file | content |
|---|---|
| Prelude, Sql | keyed writes, row reading, joins, ordering and limits on lists |
| Calendar, Text, StopName, LikePattern | dates, numbers, times, stop names, SQLite LIKE |
| Schema | the tables, one writer's connection, DELETE by provider |
| StaticFeed, StaticImport | the materialising reader, the streaming importer, several archives |
| FeedMeaning | what is imported, told on the cells of the files |
| Observations, Realtime, Predictions | feed folding, the nearest-occurrence search, what it means for times |
| MessageMeaning | what is collected and written, told on the messages |
| DepartureQuery, StopList, StopLookup | the read queries, and asking the one for names from the other |
| LiveView, DocumentedOrder | the overlay as a reader sees it, and the order the documentation wants |
| Commits, Histories | write transactions, and each provider's own history of them |
| Protocol, Realisation | their interleaving statement by statement, and what it can commit |
| ProviderStatus, Refresh, RefreshRuns, CycleRuns | the status tracker, one refresh cycle, whole runs, cycles as protocol runs |

## Main results

1. **Streaming refines materialising** (`StaticImport.AppendStaticFeedFromPayload`,
   `StaticImport.BothImporters`): for every archive and batch size. What both of them store is told on the
   cells of the files, without their row readers (`FeedMeaning.ImportedStops`,
   `FeedMeaning.ImportedDepartures`, `FeedMeaning.ImportedDates`), and so are the archives they accept
   (`FeedMeaning.AcceptsExactly`) and what a refresh publishes of several (`RefreshRuns.PublishedExactly`).
2. **Service dates** (`FeedMeaning.ParsedServiceDates`): exactly the calendar and exception rule of the
   GTFS Schedule Reference, sections "calendar.txt" and "calendar_dates.txt", on the rows of the two files.
3. **Nearest occurrence** (`Predictions.OutcomesExactly`, `Predictions.OrderMattersOnlyOnTies`): what the
   batched search can return are exactly the nearest-occurrence assignments, for every batch size; the row
   order matters exactly on ties. **The overlay** is told on the messages (`MessageMeaning.OverlayExactly`):
   who is cancelled, what is skipped, and whose last word counts.
4. **The departure query is its set specification** (`DepartureQuery.ResultIsTop`,
   `DepartureQuery.TopIsResult`): in both directions; and its response is told on the tables
   (`DepartureQuery.Schedule`), as is that of the stop list (`StopList.Stops`).
5. **Two service dates are enough** (`RefreshRuns.QueryWindowIsComplete`): over whole runs, because the
   importer caps times at 47:59:59.
6. **Serialisability** (`Protocol.Serialisable`), and from it overlay consistency
   (`Protocol.OverlayAlwaysFits`), publish atomicity (`Protocol.ReadersSeeWholeFeeds`), confluence of every
   provider's history up to timestamps (`Histories.HistoriesDecide`, `Protocol.InterleavingsAgree`) and a
   lock that is never stuck (`Protocol.HolderCanProceed`). Conversely every admissible log is committed by
   some run (`Realisation.CommittedExactly`), that of a refresh cycle included (`CycleRuns.CycleHasARun`).
7. **The refresh cycle** (`Refresh.RefreshService.RefreshAll`): for every answer of the outside world and
   every scheduling, who gets which schedule, which overlay and which status
   (`RefreshRuns.GatingExactly`, `RefreshRuns.PublishedExactly`, `RefreshRuns.OverlayOutcome`,
   `RefreshRuns.ValidExactly`, `RefreshRuns.ValidMeansRefreshed`); and **its runs** with restarts in between
   (`RefreshRuns.Serve`, `RefreshRuns.InstallsAreApart`, `RefreshRuns.FailedIsRetried`,
   `RefreshRuns.ValidMeansInstalled`).

## Where an expectation fails

- Normalising a stop name is not idempotent (`StopName.NormalizeIsNotIdempotent`);
  `StopName.IdempotentExactly` says for which names it is.
- The realtime window misses late-night trips (`Predictions.LateNightTripIsMissed`);
  `Predictions.WindowMissesExactly` says exactly which, for any set of predictions.
- A derived delay may depend on SQLite's row order (`Predictions.TieDependsOnRowOrder`);
  `Predictions.OrderMattersOnlyOnTies` says exactly when.
- `estimated_at` may be off by an offset change (`Predictions.OffsetChangeBreaksRoundTrip`);
  `Predictions.PredictionRoundTrip` says exactly when it is the predicted instant.
- A stop-name request with `%` or `_` is not a substring test (`LikePattern.UnderscoreIsNotEscaped`);
  `LikePattern.SubstringExactlyWithoutWildcards` says that exactly these requests are not, and
  `LikePattern.FragmentMatchesSomewhere` what they are.
- Results are not ordered by lowest delay first and then scheduled time, as `README.md:41` of the repository
  says, but by estimated time (`DocumentedOrder.DelayedDepartureComesFirst`);
  `DocumentedOrder.DocumentedExactly` says exactly when the two orders agree.
- A name that `stops` lists need not find its stop in `schedule` (`StopLookup.ListedStopIsShutOut`), although
  `README.md:43` of the repository wants it for lookups; `StopLookup.ListedNameFinds` says exactly when it does.

## Model

| member | source | states |
|---|---|---|
| Calendar.DayOfCivil | app/repositories/gtfs_static.py:253-256 | counting civil dates up from 0001-01-01 inverts the Gregorian ordinal, for every day |
| Calendar.CivilOfDay | app/repositories/gtfs_static.py:294-297 | every civil date is recovered from its ordinal, so days and dates are the same thing |
| Calendar.AcceptedRange | app/repositories/gtfs_static.py:290-297 | an accepted date lies in 2000-01-01 to 2100-12-31 |
| Calendar.IsoOfAccepted | app/repositories/gtfs_static.py:271-297 | reading an accepted YYYYMMDD and writing ISO only inserts the hyphens |
| Calendar.AcceptedOfIso | app/repositories/gtfs_static.py:290-297 | every day of the accepted years is read back from its own ISO text |
| Calendar.DateExactly | app/repositories/gtfs_static.py:290-297 | a text is accepted as a day if and only if it is that day of 2000-01-01 to 2100-12-31 in eight digits |
| Calendar.FromIsoOfIso | app/repositories/gtfs_realtime.py:121-125 | a stored ISO date denotes the day it was written from |
| Calendar.IsoOrder | app/repositories/gtfs_realtime.py:94-101 | text order of ISO dates is chronological order, and equal texts are equal days, in both directions |
| Calendar.BetweenIsInterval | app/repositories/gtfs_realtime.py:94-101 | SQL's textual BETWEEN selects exactly the days of the interval |
| Text.TimeSecondsOrNone | app/repositories/gtfs_static.py:300-309 | an accepted time is at least 0 and below 172800 seconds, whatever was dropped or raised |
| Text.TimeRoundTrip | app/repositories/gtfs_static.py:300-309 | every second below 48 hours, written HH:MM:SS, is accepted and read back unchanged |
| Text.TimeExactly | app/repositories/gtfs_static.py:300-309 | a text is accepted as so many seconds if and only if, up to outer blanks, it is three digit groups between colons, up to 47 hours, 59 minutes and 59 seconds, that say so; it raises if and only if one of three such groups is too long for int() |
| Text.IntegerOfDigits | app/repositories/gtfs_static.py:312-316 | a digit string is read as the number it denotes, unless it has more digits than int() takes |
| Text.IntegerOfNegated | app/repositories/gtfs_static.py:312-316 | a leading minus negates the number after it |
| Text.IntegerExactly | app/repositories/gtfs_static.py:312-316 | a text is read as an integer if and only if, up to outer blanks other than the four separators, it is an optional sign and at most 4300 digits in groups between single underscores, and denotes that integer |
| Text.StripExactly | app/repositories/gtfs_static.py:326-327 | stripping leaves the stretch between the blanks at both ends, for the ten ASCII blanks |
| StopName.RemoveSuffixIsLeftmostMatch | app/core/stop_name.py:5-10 | on a trimmed name the substitution cuts at the leftmost match of the pattern, and changes nothing exactly when there is none |
| StopName.NormalizeMeaning | app/core/stop_name.py:8-10 | the result is the trimmed name up to its leftmost position suffix, all of it if it has none; it is trimmed, and empty exactly when the trimmed name is |
| StopName.IdempotentExactly | app/core/stop_name.py:8-10 | normalising is idempotent on a name if and only if the trimmed name does not end in two position suffixes |
| StopName.NormalizeIsNotIdempotent | app/core/stop_name.py:8-10 | the concrete name that loses one suffix per pass |
| StopName.StartsShorten | app/core/database.py:116-119 | a start of the program that changes a stored name shortens it, as every earlier start did |
| StopName.StartsReachFixpoint | app/core/database.py:116-119 | after as many starts as characters the stored name is final and has no suffix |
| Schema.ClearedMeaning | app/repositories/gtfs_static.py:89-98 | the six DELETEs empty one provider's tables and leave every other provider's rows |
| Schema.Connection.DeleteProvider | app/repositories/gtfs_static.py:89-98 | the loop over the table names leaves exactly the cleared tables |
| FeedMeaning.ParsedServiceDates | app/repositories/gtfs_static.py:241-273 | (service, day) is emitted if and only if the last calendar_dates.txt row of that service and day with type 1 or 2 has type 1, or there is none and some calendar.txt row of that service covers the day and has a 1 in the column of its weekday |
| FeedMeaning.WeekdayNames | app/repositories/gtfs_static.py:245-256 | the seven columns in their order, against the weekdays of the calendar: 1 June 2026 is a Monday |
| FeedMeaning.ExceptionsRead | app/repositories/gtfs_static.py:258-270 | which exception is the last one, and of which type, told on the cells |
| FeedMeaning.CalendarReads | app/repositories/gtfs_static.py:246-257 | which calendar rows cover a day, told on the cells |
| StaticFeed.ServiceDatesAccepted | app/repositories/gtfs_static.py:241-273 | every emitted date lies in the accepted years |
| StaticFeed.ServiceDatesBounded | app/repositories/gtfs_static.py:241-273 | one service emits at most 36890 dates |
| StaticFeed.ParsedStops | app/repositories/gtfs_static.py:202-215 | every parsed stop has a non-empty trimmed id and name |
| StaticFeed.RoutesAreNamed | app/repositories/gtfs_static.py:218-236 | a listed route always has a non-empty name, so the route id is the fallback only for unlisted routes |
| FeedMeaning.RoutesAreCalled | app/repositories/gtfs_static.py:218-236 | a route goes by the short name, else the long name, else the id of the last routes.txt row that lists it; an unlisted one by its id |
| FeedMeaning.TripsAreKnown | app/repositories/gtfs_static.py:226-238 | a trip is known if and only if some trips.txt row with its id has a service; its service_id, trip_headsign and route are those of the last such row |
| FeedMeaning.ParsedDepartures | app/repositories/gtfs_static.py:276-287 | a departure is parsed if and only if some stop_times.txt row of a known trip gives its stop, number and time, and the last trips.txt row of that trip its service, route and destination |
| FeedMeaning.ParsesExactly | app/repositories/gtfs_static.py:26-33 | an archive is parsed if and only if its four files are there, no cell that is stripped is missing from its row, and no departure_time has a digit group too long for int() |
| StaticFeed.ParsedTimes | app/repositories/gtfs_static.py:276-309 | every parsed departure time is below 48 hours |
| StaticImport.ReadTrips | app/repositories/gtfs_static.py:226-238 | the dict loop fails exactly when some row raises, and otherwise holds the trips of the specification, which FeedMeaning.TripsAreKnown tells on the cells |
| StaticImport.AddRange | app/repositories/gtfs_static.py:254-257 | the day loop adds exactly the covered days of one calendar row |
| StaticImport.ReadRanges | app/repositories/gtfs_static.py:246-257 | the calendar loop over a dict of sets computes the union of the days that the rows cover, which FeedMeaning.CalendarReads tells on the cells |
| StaticImport.ReadExceptions | app/repositories/gtfs_static.py:258-270 | the exception loop applies additions and removals in file order, which FeedMeaning.ExceptionsRead tells on the cells |
| StaticImport.ReadServiceDates | app/repositories/gtfs_static.py:241-273 | what is yielded lists the specified set, every pair exactly once, in some order |
| StaticImport.ParseStaticFeed | app/repositories/gtfs_static.py:26-33 | the materialising reader fails exactly when the specification does, and otherwise returns its feed |
| StaticImport.DatesNeverConflict | app/repositories/gtfs_static.py:52-55 | the plain INSERT of service dates cannot hit a duplicate key |
| StaticImport.ReplaceStaticFeed | app/repositories/gtfs_static.py:36-60 | succeeds exactly when no primary key repeats, every sequence fits, and any stops have their provider's row; then leaves the feed in place of the old rows |
| StaticImport.InsertTripBatch | app/repositories/gtfs_static.py:127-132 | one flush continues the same run of upserts |
| StaticImport.StageTrips | app/repositories/gtfs_static.py:101-124 | for every batch size the temporary table equals the trips dict of the materialising reader |
| StaticImport.RowReadersAgree | app/repositories/gtfs_static.py:148-181 | on one row the streaming and the materialising reader fail together and keep the same departure |
| StaticImport.ResolvedIsDepartures | app/repositories/gtfs_static.py:148-181 | resolving stop times after reading them yields the departures of reading them with the trips at hand |
| StaticImport.ResolvedByBatch | app/repositories/gtfs_static.py:161-181 | selecting only the trips a batch names is enough |
| StaticImport.InsertDepartureBatch | app/repositories/gtfs_static.py:158-186 | one flush fails exactly on an unstorable sequence, and otherwise continues the run of upserts |
| StaticImport.InsertDepartures | app/repositories/gtfs_static.py:135-145 | for every batch size the table is the upsert of all resolved stop times in file order |
| StaticImport.AppendStaticFeedFromPayload | app/repositories/gtfs_static.py:69-86 | for every archive and batch size: succeeds exactly on archives that the materialising reader parses with storable sequences and whose stops, if any, have their provider's row; leaves the last-row-wins fold of that parse. The next four rows tell both on the cells |
| FeedMeaning.AcceptsExactly | app/repositories/gtfs_static.py:69-86 | an archive is imported if and only if it is readable, the number of every stop time that counts is a signed 64-bit integer, and the provider has its row unless no stop counts |
| FeedMeaning.ImportedStops | app/repositories/gtfs_static.py:69-86 | after an import a stop is what the last stops.txt row with its id and a name says, cell by cell; without one it is what it was |
| FeedMeaning.ImportedDepartures | app/repositories/gtfs_static.py:69-86 | after an import a departure is what the last stop_times.txt row with its key that counts says, with service, route and destination from its trip; without one it is what it was |
| FeedMeaning.ImportedDates | app/repositories/gtfs_static.py:69-86 | an import adds exactly the dates on which the rows of the two calendar files let a service run |
| StaticImport.ReplaceStaticFeedFromPayload | app/repositories/gtfs_static.py:63-66 | the same after clearing the provider |
| StaticImport.BothImporters | app/repositories/gtfs_static.py:26-86 | run on equal databases, whenever both importers accept they leave the same tables; the materialising one accepts less exactly by repeated keys |
| StaticImport.LastRowWins | app/repositories/gtfs_static.py:182-186 | an imported departure row is the feed's last with its key; other keys keep their rows |
| StaticImport.ImportArchive | app/core/refresh.py:193-198 | each archive of a build extends the merged database by its own parse, or fails the build |
| StaticImport.BuildStaticDatabase | app/core/refresh.py:180-199 | succeeds exactly when there is a URL and every archive can be imported; then holds the right-biased merge of stops and departures and the union of dates |
| StaticImport.StagedRows | app/core/refresh.py:138-157 | what is copied out of a staged database is exactly its provider's merged feeds |
| StaticImport.MergedDepartureSource | app/core/refresh.py:193-198 | every merged departure is one of some feed's own, and no later feed has its key |
| FeedMeaning.MergedStops | app/core/refresh.py:193-198 | of several archives the last one with a row that counts for a stop decides it |
| FeedMeaning.MergedDepartures | app/core/refresh.py:193-198 | of several archives the last one with a row that counts for a departure decides it; its trip and route come from that archive |
| FeedMeaning.MergedDates | app/core/refresh.py:193-198 | a service runs on the days on which it does in any of the archives |
| StaticImport.ImportedTimes | app/core/refresh.py:180-199 | every departure of merged feeds respects the 48-hour cap |
| StaticImport.DisjointFeedsCommute | app/core/refresh.py:193-198 | feeds with disjoint stop and departure keys can be merged in either order |
| Observations.AbsorbOne | app/repositories/gtfs_realtime.py:62-78 | one observation lands in one of the four collections and leaves the others alone |
| Observations.Collector.CollectUpdate | app/repositories/gtfs_realtime.py:65-78 | one stop-time update: no sequence, skipped, delay and time, in that precedence |
| Observations.Collector.CollectUpdates | app/repositories/gtfs_realtime.py:65-78 | the update loop is the ordered fold of its updates |
| Observations.Collector.CollectEntity | app/repositories/gtfs_realtime.py:56-78 | one entity: no trip update, empty trip id and cancellation come before its updates, which the MessageMeaning rows below tell on the messages |
| Observations.Collector.CollectObservations | app/repositories/gtfs_realtime.py:48-78 | the dicts and sets afterwards are the fold of the feed over what they held |
| Observations.Collector.CollectFeeds | app/repositories/gtfs_realtime.py:16-25 | fails exactly on a feed without a proper header; otherwise folds all feeds in order |
| MessageMeaning.CancelledExactly | app/repositories/gtfs_realtime.py:56-64 | a trip is cancelled if and only if some entity of some feed has a trip update that is CANCELED, with its trip id up to outer blanks |
| MessageMeaning.SkippedExactly | app/repositories/gtfs_realtime.py:56-71 | a stop is skipped if and only if some update with its number, in a trip update of its trip that is not CANCELED, is SKIPPED |
| MessageMeaning.GatheredExactly | app/repositories/gtfs_realtime.py:72-78 | the delay of a key is that of the last update that gives one, the departure's before the arrival's; its time is that of the last update that gives no delay but a time |
| MessageMeaning.OverlayExactly | app/repositories/gtfs_realtime.py:14-45 | what a refresh writes: exactly the cancellations and skips of its messages; under each key the last delay, else the last time minus that of a nearest occurrence in reach, else nothing |
| Observations.FeedsAreOneFeed | app/repositories/gtfs_realtime.py:16-25 | several feeds in order say what one concatenated feed says |
| Observations.NeverUndone | app/repositories/gtfs_realtime.py:60-71 | no later feed undoes a cancellation or a skip |
| Observations.LastWordOfEachKind | app/repositories/gtfs_realtime.py:72-78 | each key keeps its last delay and its last absolute time, however the kinds interleave |
| Realtime.OccurrenceMeaning | app/repositories/gtfs_realtime.py:94-101 | the batch SELECT returns exactly the scheduled occurrences of its trips inside the interval |
| Realtime.Window | app/repositories/gtfs_realtime.py:88-90 | fails exactly when a prediction is outside the calendar; otherwise spans one day before the earliest to one day after the latest local date |
| Realtime.BatchesCut | app/repositories/gtfs_realtime.py:115-118 | the batches concatenate to the trips |
| Realtime.BatchSizes | app/repositories/gtfs_realtime.py:115-118 | no batch is empty or over size |
| Realtime.BatchesPartition | app/repositories/gtfs_realtime.py:115-118 | distinct trips fall in exactly one batch, so no key is split |
| Realtime.ScanRows | app/repositories/gtfs_realtime.py:102-111 | the row loop is the ordered fold that keeps strictly closer rows |
| Realtime.ScanKeepsNearest | app/repositories/gtfs_realtime.py:102-111 | after any rows in any order the candidates are nearest among all rows seen, one for each predicted key that has any |
| Realtime.OutcomesAreNearest | app/repositories/gtfs_realtime.py:81-112 | whatever the batch size, the order of the trips and the order of the rows, the search returns a nearest-occurrence assignment |
| Realtime.DelaysFromAbsoluteTimes | app/repositories/gtfs_realtime.py:81-112 | fails exactly when a prediction is outside the calendar; else returns an outcome of the batched search, so that each predicted key in reach gets its prediction minus a nearest scheduled time, and no other key gets anything |
| Realtime.SetDefaults | app/repositories/gtfs_realtime.py:26-27 | direct delays win over derived ones |
| Realtime.OverlayNeverConflicts | app/repositories/gtfs_realtime.py:29-45 | no statement of an overlay write fails on a key, and together they replace the overlay |
| Realtime.OverlayStatementFails | app/repositories/gtfs_realtime.py:27-45 | a statement of an overlay write fails exactly on a key that is already there |
| Realtime.WithOverlayMeaning | app/repositories/gtfs_realtime.py:29-45 | a refresh changes one provider's overlay, no schedule and no other provider |
| Realtime.ReplaceRealtimeDelays | app/repositories/gtfs_realtime.py:14-45 | fails exactly on a bad header or an unrepresentable time; otherwise the overlay is what the feeds make of the schedule in the database |
| Predictions.AnyNearestCanWin | app/repositories/gtfs_realtime.py:92-112 | for every nearest occurrence and every batch size some row order records the delay against it |
| Predictions.OutcomesExactly | app/repositories/gtfs_realtime.py:81-118 | over all orders of trips and rows the batched search can return exactly the nearest-occurrence assignments, for every batch size |
| Predictions.OrderMattersOnlyOnTies | app/repositories/gtfs_realtime.py:81-118 | for every batch size the recorded delay is independent of row order if and only if all nearest occurrences of its key are due at one time |
| Predictions.TieDependsOnRowOrder | app/repositories/gtfs_realtime.py:102-112 | a departure of 1 and 2 June 2026 predicted half way between them, recorded half a day late or half a day early |
| Predictions.WindowCoverage | app/repositories/gtfs_realtime.py:88-101 | an occurrence due on the prediction's local date or the next one is in the window |
| Predictions.WindowMissesExactly | app/repositories/gtfs_realtime.py:88-101 | for any predictions: of the occurrences due within a day of one of them the window misses exactly those due the day before with times from 24:00:00 on, when no prediction is for an earlier day |
| Predictions.LateNightTripIsMissed | app/repositories/gtfs_realtime.py:88-112 | a late-night trip of 1 June 2026, two minutes late, for which no delay is recorded |
| Predictions.HalfDayBound | app/repositories/gtfs_realtime.py:107-125 | with a constant offset, a same-day time and service on three days, a delay is recorded and is at most 43200 seconds in magnitude |
| Predictions.OverlayPrecedence | app/repositories/gtfs_realtime.py:20-45 | a stored delay is the last direct delay if any, else the last prediction minus a nearest scheduled time if one is in reach, else absent |
| Predictions.PredictionRoundTrip | app/repositories/gtfs_realtime.py:107-125 | scheduled wall time plus derived delay is what the clock shows at the predicted instant if and only if the UTC offset then is the one at the scheduled time; it denotes that instant by a reading that occurs if and only if, besides, the instant is identified by its reading |
| Predictions.OffsetChangeBreaksRoundTrip | app/repositories/gtfs_realtime.py:107-125 | a departure of 29 March 2026, predicted past the change of the clocks, whose estimate is an hour off |
| LikePattern.FragmentMatchesSomewhere | app/repositories/transit_queries.py:94-105 | %fragment% matches if and only if some stretch of the text matches the fragment as a pattern |
| LikePattern.PlainFragmentIsSubstring | app/repositories/transit_queries.py:94-105 | without wildcards that is a substring test up to ASCII case |
| LikePattern.WildcardBreaksSubstring | app/repositories/transit_queries.py:94-105 | every fragment with a wildcard finds a text that does not hold it |
| LikePattern.SubstringExactlyWithoutWildcards | app/repositories/transit_queries.py:94-105 | asking for a fragment is asking for the texts that hold it if and only if the fragment has no wildcard |
| LikePattern.UnderscoreIsNotEscaped | app/repositories/transit_queries.py:94-105 | a concrete fragment whose wildcard finds a text that does not hold it |
| DepartureQuery.OuterJoinsAddOneRow | app/repositories/transit_queries.py:85-90 | the three outer joins on full primary keys add exactly one row |
| DepartureQuery.NameFilterIsSpec | app/repositories/transit_queries.py:94-105 | the name filter with its NOT EXISTS subquery over row lists is the exact-else-fuzzy rule over the keyed tables |
| DepartureQuery.JoinIsSetSpecification | app/repositories/transit_queries.py:79-107 | in any storage order the nested loops list exactly the qualifying (departure, date) pairs, each once |
| DepartureQuery.OrderIsTotalPreorder | app/repositories/transit_queries.py:108-110 | the ORDER BY key orders all rows |
| DepartureQuery.ResultIsTop | app/repositories/transit_queries.py:79-125 | every result is sorted, duplicate-free, inside the specified set, of at most count rows, of all rows if there are fewer or count is negative, and nothing left out sorts strictly before anything returned |
| DepartureQuery.TopIsResult | app/repositories/transit_queries.py:79-125 | conversely every such list is a result the statement may return |
| DepartureQuery.PairsAtMostOnce | app/core/database.py:56-104 | a (departure, service date) pair is returned at most once |
| DepartureQuery.ExactBeforeFuzzy | app/repositories/transit_queries.py:72-105 | an exact stored name shuts out every fuzzy one; otherwise every row matches the pattern, a substring for plain fragments |
| DepartureQuery.TwoDatesSuffice | app/repositories/transit_queries.py:74-107 | with capped times the date filter passes exactly the occurrences of dates up to today whose wall-clock time is not before now |
| DepartureQuery.CapIsNeeded | app/repositories/gtfs_static.py:307-309 | at 48:00:00 a due occurrence would belong to neither date |
| DepartureQuery.UpcomingIsReturned | app/repositories/transit_queries.py:79-125 | a live, name-matching pair is returned exactly when it is upcoming, if count allows |
| DepartureQuery.Select | app/repositories/transit_queries.py:79-125 | executing the statement yields one of its results |
| DepartureQuery.Schedule | app/repositories/transit_queries.py:68-143 | the response told on the tables: each element is a departure on a service date that runs, is asked for, not cancelled, not skipped and not past, with its trip, normalised stop name, route, destination, times and delay; each once, by estimated time, trip and sequence; at most count, and all if there are fewer or count is negative |
| DepartureQuery.AskedForIsQualified | app/repositories/transit_queries.py:72-105 | the name filter asks for the whole normalised name, or, if no stop of the provider has it, for a stretch of the name that matches it as a pattern |
| DepartureQuery.RowsAreAnswers | app/repositories/transit_queries.py:79-143 | every qualifying row answers the request, and its model tells it from the tables |
| DepartureQuery.AnswersAreRows | app/repositories/transit_queries.py:79-107 | every answer is a qualifying row |
| DepartureQuery.TopIsResponse | app/repositories/transit_queries.py:79-143 | a top of the qualifying rows makes such a response |
| DocumentedOrder.DocumentedExactly | app/repositories/transit_queries.py:108-111 | every result is in the documented order, lowest delay first and then scheduled time, if and only if of the rows within the limit none has a longer delayed one ahead of it by estimated time |
| DocumentedOrder.DelayedDepartureComesFirst | app/repositories/transit_queries.py:108-111 | two departures of 1 June 2026 of which every result lists the late one first |
| StopList.OrderIsTotalPreorder | app/repositories/transit_queries.py:18-29 | the stop order by name, then id, orders all rows |
| StopList.FirstsAreFirst | app/repositories/transit_queries.py:30-46 | the kept rows are exactly those with no earlier row of the same normalised name |
| StopList.Deduplicate | app/repositories/transit_queries.py:30-46 | the loop with its seen set lists the models of the kept rows in order |
| StopList.SelectStops | app/repositories/transit_queries.py:17-29 | the statement yields the first 500 or 5000 matching rows by name and id, as the next row tells on the tables |
| StopList.TopIsRead | app/repositories/transit_queries.py:17-29 | the rows are the provider's stops, or those with a stretch of the name that matches a non-empty query: sorted by stored name and id, each once, at most 500 with a query and 5000 without, and only what comes last is left out, for want of room |
| StopList.FirstsKeepOrder | app/repositories/transit_queries.py:30-46 | the kept rows stay in their order |
| StopList.Stops | app/repositories/transit_queries.py:15-46 | over those rows: names are pairwise distinct, each element tells the first row of its normalised name with id, coordinates and code, elements are in the order of these rows, and no name is lost |
| StopLookup.ListedFragmentMatches | app/repositories/transit_queries.py:30-105 | the fuzzy pattern for a listed name matches every stored name behind it |
| StopLookup.ListedNameFinds | app/repositories/transit_queries.py:30-105 | a stop is found under its listed name if and only if its stored name is an exact match or no stored name is |
| StopLookup.SettledNameIsExact | app/repositories/transit_queries.py:30-105 | a stop whose stored name has settled is found under its listed name by exact match |
| StopLookup.ListedStopIsShutOut | app/repositories/transit_queries.py:30-105 | a concrete stop, listed under a name by which the departure query does not find it |
| StopList.StoredNamesAfterStarts | app/core/database.py:116-119 | n starts change stop names only, each by n normalisations |
| StopList.StartsSettle | app/core/database.py:116-119 | after enough starts another start changes nothing |
| Commits.InstallNeverConflicts | app/core/refresh.py:138-157 | no statement of an install fails on a primary key, the copy of the stops succeeds exactly when they have their provider's row, and together the statements replace the provider's schedule |
| Commits.InstallStatementFails | app/core/refresh.py:138-157 | a statement of an install fails exactly on a key that is already there, or on stops without their provider's row |
| Commits.InstalledMeaning | app/core/refresh.py:138-157 | afterwards the provider's static rows are entirely the new feed, its overlay is empty, its stamp is set, and every other provider is untouched |
| Commits.RefreshedMeaning | app/core/refresh.py:124-129 | a committed realtime refresh changes one provider's overlay and realtime stamp only |
| Commits.OverlayDependsOnOwnSchedule | app/repositories/gtfs_realtime.py:81-112 | what feeds make of a schedule depends only on the provider's own rows |
| Commits.OverlayFitsInstalledSchedule | app/core/refresh.py:118-157 | after any history of transactions a provider's overlay is that of its last refresh and fits the schedule now installed, or is empty after an install |
| Commits.ScheduleIsLastInstall | app/core/refresh.py:138-157 | after any history a provider's schedule is entirely that of its last install |
| Commits.InstallsMeaning | app/core/refresh.py:138-157 | after installs of distinct providers each has its feed and stamp, the others what they had |
| Histories.AdmissibleIsOwn | app/core/refresh.py:118-164 | whether a transaction is admissible depends on its own provider's rows only |
| Histories.HistoriesDecide | app/core/refresh.py:63-164 | a log is admissible if and only if every provider's own transactions are, and each provider then holds what these alone make of what it held |
| Histories.SameHistoriesSameTables | app/core/refresh.py:63-164 | logs with the same transactions of every provider in the same order, refreshes included, leave equal tables, and one is admissible if the other is |
| Histories.SameHistoriesAgree | app/core/refresh.py:63-164 | the same at whatever times: only timestamps that the transactions have set can differ |
| Histories.InstallOrderIsFree | app/core/refresh.py:63-116 | two orders of the same installs of distinct providers are one history for every provider |
| Protocol.SelectedDelaysFit | app/repositories/gtfs_realtime.py:92-112 | once every batch is read the derived overlay fits the committed schedule, although the SELECTs were separate steps |
| Protocol.NextKeepsInv | app/core/database.py:19-42 | every step of every task keeps the protocol invariant |
| Protocol.Serialisable | app/core/database.py:19-42 | in every state of every interleaving the committed tables are those of the committed transactions run whole in commit order |
| Protocol.OverlayAlwaysFits | app/core/refresh.py:118-157 | in every state of every interleaving each provider's realtime rows fit the schedule committed with them |
| Protocol.ReadersSeeWholeFeeds | app/core/refresh.py:138-157 | every reader snapshot shows a provider's static tables as entirely one feed, and realtime rows that fit that feed |
| Protocol.InterleavingsAgree | app/core/refresh.py:63-136 | two interleavings, at whatever times, in which every provider has gone through the same transactions in the same order hold the same schedules, overlays and providers; only timestamps that were set can differ |
| Protocol.InstallInterleavingsAgree | app/core/refresh.py:63-116 | in particular when both have installed the same feeds for distinct providers, in any order at any times |
| Protocol.HolderCanProceed | app/core/database.py:38-42 | in every reachable state the lock's holder has a next step that violates no constraint and brings it closer to committing what it has promised, so it is never stuck |
| Protocol.WritersCanFail | app/core/database.py:38-42 | every writer can fail before it takes the lock and at each statement after: nothing committed changes, and the lock is let go |
| Protocol.ReadersNeverWait | app/core/database.py:19-42 | in every state, whoever holds the lock, a reader can read, and sees what is committed |
| Realisation.EveryLogHasARun | app/core/database.py:19-42 | every log of admissible transactions, stamped in order, is what some interleaving of statements commits |
| Realisation.NextKeepsOrder | app/core/database.py:19-42 | every step keeps the committed stamps in order and the committed overlays readable |
| Realisation.CommittedExactly | app/core/database.py:19-42 | a log is committed by some run if and only if its transactions are admissible, stamped in order, for known providers, and from readable messages |
| CycleRuns.CycleHasARun | app/core/refresh.py:47-164 | what a refresh cycle commits, some run of the protocol commits, from the same tables at the same time and with the same tables at its end |
| ProviderStatus.Tracker.constructor | app/core/provider_status.py:34-38 | every provider starts PENDING at 0.0 |
| ProviderStatus.Tracker.Set | app/core/provider_status.py:40-47 | raises exactly on an unknown slug or a progress outside [0, 1], and otherwise overwrites one entry |
| ProviderStatus.Tracker.Snapshots | app/core/provider_status.py:49-52 | every status once, in slug order |
| ProviderStatus.ListingIsUnique | app/core/provider_status.py:49-52 | the statuses admit only one such list, so the copy is deterministic |
| Refresh.RefreshService.BuildInWorker | app/core/refresh.py:180-199 | a worker succeeds exactly when nothing of its own raises and its archives, of which there is at least one, can all be imported; then its database holds exactly their merged parses |
| Refresh.RefreshService.InstallStaticDatabase | app/core/refresh.py:138-157 | succeeds exactly when no step raises, whichever that may be: either the whole install is committed with a stamp from within the call, or nothing is |
| Refresh.RefreshService.InstallBuilt | app/core/refresh.py:102-116 | fails exactly when a step raises, and then the status is FAILED and the committed tables are as before |
| Refresh.RefreshService.DueProviders | app/core/refresh.py:64-66 | every provider is checked once and exactly the due ones are collected, which RefreshRuns.GatingExactly tells on the clock |
| Refresh.RefreshService.StartProvider | app/core/refresh.py:74-97 | a provider whose URLs cannot be resolved is a failure shown as FAILED, any other is being built and shown as DOWNLOADING |
| Refresh.RefreshService.FinishBuild | app/core/refresh.py:106-115 | a build that fails is a failure shown as FAILED; one that succeeds waits for its install, shown as UPDATING |
| Refresh.RefreshService.FinishInstall | app/core/refresh.py:102-116 | a waiting install ends as one more commit of the archives' merged schedule exactly when no step raises, else as a failure |
| Refresh.RefreshService.RefreshStaticFeeds | app/core/refresh.py:63-100 | in every scheduling: every due provider whose schedule arrives gets it, stamped after its check; every other due one is a failure, and nobody else is touched |
| Refresh.RefreshService.RefreshRealtime | app/core/refresh.py:124-129 | succeeds exactly when all headers are proper, all times representable and nothing raises; then commits one overlay that these messages make of the committed schedule, stamped within the call, else nothing |
| Refresh.RefreshService.RefreshAuxiliaryData | app/core/refresh.py:118-136 | succeeds exactly when the delays, if any, and the machines, if any, arrive; commits the one overlay exactly when the delays arrive; touches only its provider |
| Refresh.RefreshService.EnsureProviders | app/core/refresh.py:49-50 | afterwards every configured provider has its row, a new one with its city and no timestamps, and no row, schedule, overlay or timestamp that was there has changed |
| Refresh.RefreshService.RefreshOverlays | app/core/refresh.py:52-61 | one overlay for each provider whose delays arrive, from its own messages; failures are exactly the providers whose auxiliary data do not arrive; final statuses follow |
| Refresh.RefreshService.RefreshAll | app/core/refresh.py:47-61 | for every answer of the outside world and every scheduling: the tables go through exactly the installs and overlays that arrive, and every provider ends VALID at 1.0 or FAILED at 0.0, FAILED exactly for the static and auxiliary failures |
| RefreshRuns.CycleOutcome | app/core/refresh.py:63-116 | a cycle installs a provider if and only if it is due and its schedule arrives; then the schedule is what the importer makes of its archives, with a stamp after the due check, else schedule and stamp stay and it is a failure exactly when due |
| RefreshRuns.GatingExactly | app/core/refresh.py:63-177 | a provider with a readable timestamp from less than the interval before its due check is neither installed nor a failure; any other is installed in that cycle if its schedule arrives, and a failure if not |
| RefreshRuns.ScheduleArrivesExactly | app/core/refresh.py:63-199 | a schedule arrives if and only if nothing raises, there is an archive, and all of them are downloaded, readable and storable, told on the cells |
| RefreshRuns.DelaysArriveExactly | app/repositories/gtfs_realtime.py:14-25 | delays arrive if and only if nothing raises, every message is complete with a version that is not blank, and every last word on a time has a local date with a day before and after it |
| RefreshRuns.PublishedExactly | app/core/refresh.py:102-199 | after an install the provider's stops, departures and service dates are exactly what the cells of its archives say, the last archive that mentions one deciding |
| RefreshRuns.OverlayOutcome | app/core/refresh.py:118-157 | the overlay after a cycle: what the arrived messages make of the schedule now installed, else nothing after an install, else what it was |
| RefreshRuns.ValidExactly | app/core/refresh.py:47-61 | VALID at 1.0 if and only if the schedule is recent or arrived and the auxiliary data arrived, else FAILED at 0.0 |
| RefreshRuns.ValidMeansRefreshed | app/core/refresh.py:47-136 | VALID means that the overlay was refreshed in this cycle from this cycle's messages, or that there are no realtime feeds |
| RefreshRuns.ValidHasSchedule | app/core/refresh.py:47-61 | a provider that is no static failure has an install timestamp |
| RefreshRuns.ValidMeansInstalled | app/core/refresh.py:47-61 | from a database without its schedule, VALID means that some cycle so far committed an install |
| RefreshRuns.RestartKeeps | app/core/database.py:116-119 | any number of restarts changes no timestamp, departure, service date or realtime row |
| RefreshRuns.Serve | app/main.py:29-52 | starting, and refreshing for as many cycles as the world has answers, with restarts between any two, is a run in the sense of the other rows |
| RefreshRuns.StampComesFromInstall | app/core/refresh.py:154-157 | a timestamp can only come from a committed install |
| RefreshRuns.InstallsAreApart | app/core/refresh.py:166-177 | over any run two committed installs of one provider are at least the refresh interval apart |
| RefreshRuns.OneInstallPerCycle | app/core/refresh.py:63-100 | one cycle installs a provider at most once |
| RefreshRuns.KeepsSchedule | app/core/refresh.py:102-116 | without an install a provider keeps its rows and timestamp through any number of cycles and restarts, but for names of stops that restarts normalise |
| RefreshRuns.FailedIsRetried | app/core/refresh.py:102-177 | after a static failure the provider is due again, by the clock, in every later cycle until an install commits |
| RefreshRuns.QueryWindowIsComplete | app/repositories/transit_queries.py:74-107 | over any run the query's two-date filter is complete, because every install came through the importer's cap |
| LiveView.CancelledTripIsHidden | app/repositories/transit_queries.py:85-93 | a trip that any message of the refresh cancels is never returned, whatever the others say |
| LiveView.SkippedStopIsHidden | app/repositories/transit_queries.py:85-93 | the same for a stop that any message skips |
| LiveView.DelayAppliesToEveryDate | app/repositories/transit_queries.py:85-86 | one delay row shifts every occurrence of its trip and sequence alike |
| LiveView.PredictedInstantIsReturned | app/repositories/transit_queries.py:126-142 | for every row delayed by a prediction: the delay is the prediction minus the time of one nearest occurrence, and in the row of that occurrence estimated_at is what the clock shows at the predicted instant if and only if the UTC offset then is the one at the scheduled time, and denotes it if and only if, besides, the instant is identified by its reading |

## Left out

- Downloading, size limits, ZIP and CSV decoding, and protobuf parsing: rows and feed messages arrive decoded, with field widths already respected.
- FastAPI routes, response models, settings and the rest of the application lifespan: no hard property.
- SQLite internals, PRAGMAs other than `foreign_keys`, indexes and WAL: keyed tables, commit, rollback and committed snapshots are assumed.
- Ticket machines, provider registry and catalogue URL selection: they would add short, easy members; their write transaction touches no modelled table.
- Realtime rows' `updated_at` column: nothing reads it.
- A worker process that dies: it breaks the pool that all builds of a cycle share, so every unfinished build fails and the next submission raises out of the cycle. Exceptions inside a worker are modelled.
- Cancellation of a refresh cycle, duplicate configured slugs, and failures outside the guarded sections such as in `_ensure_provider`, `_static_refresh_due` or the creation of the process pool.
- Processes, threads and asyncio themselves: `Protocol` interleaves single statements, `Refresh` interleaves whole stages of the tasks of one cycle.
- StaticFeed.StopOf: keeps coordinates as texts, because float parsing is not part of this model.
- Text.IntegerOrNone: does not model non-ASCII digits and blanks; all character classes are ASCII. Text.DIGIT_LIMIT is CPython's default.
- DepartureQuery.EstimatedWall: exact integer seconds, where the statement's sort key is a floating-point Julian day.
- DepartureQuery.Schedule: casefolding is a function parameter, and the local wall clock is given in whole seconds instead of being computed from an instant.
- Realtime.Zone: two arbitrary offset functions stand for the time-zone database; daylight-saving rules are not modelled.
- Refresh.Clock: never runs backwards; a stepping clock only moves due checks.
