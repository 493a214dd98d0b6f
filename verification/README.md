# Verified models of the order management system

This Dafny project models stateful and arithmetic parts of the Aayush order management system — the
browser's token-refresh protocol, the two IST calendar engines, the inventory-ledger migration, the
matching of Shiprocket shipments to orders, the two plan/apply backfill scripts, J/K order navigation,
the chat assistant's tool loop, Indian digit grouping and the URL filter store — and proves what they
keep over every input, every run and every interleaving. `dafny verify dfyconfig.toml` checks all of it.

Every component has the same shape: plain functions say what one operation does, classes and methods
with loops are the operations as the code performs them and are proved equal to these functions, and
lemmas relate the functions to an independent reading (an invariant, a reference definition, an inverse).

| file | models |
|---|---|
| `Wrappers.dfy`, `Sequences.dfy`, `Decimals.dfy` | optional values and results, sequences without repeats, decimal text |
| `TokenRefresh.dfy` | `apps/web/lib/api-client.ts`: interceptors, the coalesced refresh, retries and logouts as a step relation over N requests |
| `Calendar.dfy` | the proleptic Gregorian calendar (section 21.4.1 of ECMA-262, Python's ordinals) |
| `IstBackend.dfy`, `IstFrontend.dfy` | `app/core/timezone.py` in microseconds and `lib/ist-date.ts` in milliseconds |
| `DateRanges.dfy`, `DateText.dfy`, `DateAgreement.dfy` | presets and preceding windows, printed and parsed dates (`full-date`, section 5.6 of RFC 3339), and that both sides agree |
| `LedgerDedup.dfy` | the migration that de-duplicates inventory movements and adds the unique constraint |
| `ShipmentSync.dfy` | the Shiprocket shipment handler, the sync loop around it, and its memory in past errors |
| `CatalogBackfill.dfy`, `CatalogGate.dfy`, `CatalogApply.dfy`, `CatalogSession.dfy` | the catalog-variant backfill: planner, gate, applier, report, and the script that runs them |
| `ImageBackfill.dfy` | the Shopify image backfill: page sweep, plan, accounts, gate, write |
| `OrderNavigation.dfy` | the stored order sequence and the J/K step |
| `ChatLoop.dfy` | the bounded loop between a language model and tools |
| `IndianFormat.dfy` | lakh/crore grouping and its reader |
| `UrlFilters.dfy` | the URL query as a store that refines a record |

## Where the code and its documentation, or two parts of the code, disagree

The models follow the code. Each of these is proved, with the exact condition where there is one.

- `Date.UTC` reads the years 0 to 99 as 1900 to 1999, so the browser's day, week and month starts and its
  day end are right exactly for instants whose IST year is outside that range (`IstFrontend.StartOfDayExact`,
  `DayEndExact`, `WeekStartExact`, `MonthStartExact`), and it agrees with the server exactly from the year
  100 on (`DateAgreement.SameDayBounds`, `DateAgreement.PresetsAgree`).
- `previous_period` is documented to mirror the analytics service's `_previous_range`. It does not: the
  analytics window overlaps the range it precedes in one instant and drifts one microsecond a period
  (`DateRanges.AnalyticsWindowDrifts`).
- The window before `this_month` is `last_month` only when both months are equally long, the one before
  `this_year` is `last_year` only when neither is a leap year (`DateRanges.PreviousOfPreset`).
- `all_time` starts in 2000 and is reversed when asked on an earlier day (`DateRanges.PresetOrdered`).
- The dashboard's "this week" and "this month" end today, the chat presets of the same names run to the
  end of the week and month; the resolved ranges are equal exactly on Sundays and on the last day of a
  month (`DateAgreement.SameNameDiffers`).
- The shipment handler remembers a completed non-match by its message text. The memory fails exactly when
  the channel order id, as far as the error table keeps it, contains `orders_show_lookup_failed`
  (`ShipmentSync.MarkerDefeatsTheMemory`), and then every sync looks the shipment up again
  (`ShipmentSync.MarkerIdLookedUpEveryTime`); and a record without an order id is remembered as
  "confirmed" although nothing was looked up (`ShipmentSync.MissingOrderIdIsRemembered`).
- The same memory is the latest error row about the shipment, whatever wrote it. Any other failure recorded
  about it, such as a record that cannot be normalised or an order that cannot be stored, replaces the memory
  exactly when its text does not read like a non-match (`ShipmentSync.OtherErrorDecidesMemory`). So "at most
  one completed lookup" holds up to the number of such rows (`ShipmentSync.LookupsAtMostOnce`), and that bound
  is reached (`ShipmentSync.ForgottenEveryTime`, `ShipmentSync.UnreadableStatusForgets`).
- The code calls a completed non-match an outcome that cannot spontaneously change. The orders table can
  change, and then the memory keeps the shipment unlinked for good, unless a record brings a matching channel
  order id itself (`ShipmentSync.RememberedForGood`, `ShipmentSync.RememberedLinksOnlyByItsId`,
  `ShipmentSync.MemoryCostsTheLink`).
- All shipments without an id share one row. Its order is overwritten by every such record that deserves
  another one, and with another numbered order at hand there is such a record exactly for the empty id
  (`ShipmentSync.OnlyIdlessShipmentsMove`, `ShipmentSync.IdlessShipmentsMove`).
- The image backfill calls a second run a no-op. The second run leaves the tables as they are exactly when
  no Shopify id came with two different images in the sweep (`ImageBackfill.BackfillExact`), so always when
  the ids are distinct (`ImageBackfill.SecondRunChangesNothing`).
- J/K navigation keeps one page number for a window of several pages. A boundary crossing keeps the
  window free of repeats exactly when that number is the page at the end that is left
  (`OrderNavigation.CrossingExact`). After a turn it is not, and from then on J never reaches the rest of
  the list, however often it is pressed (`OrderNavigation.TurningTraps`).
- `group_indian` loses the carry of a fraction from .995 up: 1.995 is printed as `1`, and `rupees` with
  paise shows three digits after the point there (`IndianFormat.RoundTripExact`, `IndianFormat.RupeesWithPaise`).
- A history limit of 0 keeps the whole chat history, since the slice `[-0:]` starts at the beginning; the
  history sent is within the limit exactly when the limit is not 0 or there is nothing to send
  (`ChatLoop.HistoryIsBounded`).
- Setting a filter to the value it already has is described as a navigation that changes nothing. With a
  `page` in the URL it does change something: the page is dropped (`UrlFilters.EchoDropsPage`).
- The types of the filter hook admit a number where the default is text or undefined, and text where it is a
  number. A patch reads back as it was written exactly when no value is of that kind
  (`UrlFilters.PatchRefines`, `UrlFilters.NumberBecomesText`). And two calls in one render do not add up: the
  second forgets the first (`UrlFilters.SameRenderForgets`).

## Model

| member | source | states |
|---|---|---|
| TokenRefresh.NextInv | apps/web/lib/api-client.ts:52-140 | Every step of every interleaving keeps the protocol invariant, and a finished refresh never changes its result. |
| TokenRefresh.RunTold | apps/web/lib/api-client.ts:52-140 | Every run comes to what its events say without any step: phase, sends, header and refresh of each request, the bearer and result of each refresh, the one in flight, posts, and the stored tokens. |
| TokenRefresh.RequestEnds | apps/web/lib/api-client.ts:101-140 | In every run a request is resolved if and only if its last answer is a success, and rejected with an answer if and only if that is its last, no success, and no first 401 of a retriable request, unless its refresh brought no token; told from the events alone. |
| TokenRefresh.SendCarriesToken | apps/web/lib/api-client.ts:52-58 | In every run each send, first or repeated, carries the access token stored at that moment, told from the events alone: the last one a refresh brought, unless a request was turned away since. |
| TokenRefresh.Coalesced | apps/web/lib/api-client.ts:62-140 | In every reachable state at most one refresh is unfinished, no request is sent more than twice (login and refresh requests once), there are at most as many refreshes as retried requests, and all sends together are at most three per request. |
| TokenRefresh.SharedVerdict | apps/web/lib/api-client.ts:101-140 | All requests that awaited one refresh get its one result for good: a token re-sends each, no token rejects each unsent; a retriable request is rejected with 401 only after a re-send or a failed refresh. |
| TokenRefresh.NoDeadlock | apps/web/lib/api-client.ts:66-140 | Whatever is unsettled in a reachable state has a step it can take once the network answers. |
| TokenRefresh.EveryRequestSettles | apps/web/lib/api-client.ts:66-140 | No run has more than eight steps per request, and one that cannot go on has settled every request and every refresh. |
| TokenRefresh.NoSpuriousLogout | apps/web/lib/api-client.ts:85-140 | With a valid refresh token, a server whose refreshes each answer with some good token, as many and as different as it likes, and that never answers 401 to a good token, no interleaving clears the tokens or lets a retriable request fail with 401. |
| TokenRefresh.LogoutsCounted | apps/web/lib/api-client.ts:101-140 | In every run, whatever the server does, there are exactly as many logouts as requests refused because their refresh gave no token, and the refresh token is given up exactly when there is one. |
| TokenRefresh.OnlyLoginAndRefreshExcluded | apps/web/lib/api-client.ts:85-107 | `/auth/me` and `/auth/logout` take part in the retry under every base URL, login and refresh do not. |
| TokenRefresh.RetriableExact | apps/web/lib/api-client.ts:99-107 | A url is left out of the retry if and only if it is some base followed by one of the two endpoints. |
| TokenRefresh.ApiClient.SetStoredAccessToken | apps/web/lib/api-client.ts:24-31 | An absent or empty token is removed, any other is stored. |
| TokenRefresh.ApiClient.ClearStoredTokens | apps/web/lib/api-client.ts:47-50 | Both tokens are gone afterwards. |
| TokenRefresh.ApiClient.OnRequest | apps/web/lib/api-client.ts:52-58 | The request interceptor is exactly the `Send` step of the protocol. |
| TokenRefresh.ApiClient.OnResponse | apps/web/lib/api-client.ts:101-119 | The response interceptor up to its `await` is exactly the `Answered` step: it joins the refresh in flight or starts one. |
| TokenRefresh.ApiClient.PostRefreshCall | apps/web/lib/api-client.ts:66-76 | Posting the refresh is exactly the `PostRefresh` step. |
| TokenRefresh.ApiClient.OnRefreshResponse | apps/web/lib/api-client.ts:77-83 | The refresh answer is exactly the `RefreshAnswered` step: only a non-empty token is stored. |
| TokenRefresh.ApiClient.OnRefreshFinally | apps/web/lib/api-client.ts:116-118 | The `finally` callback is exactly the `RunFinally` step. |
| TokenRefresh.ApiClient.OnRefreshed | apps/web/lib/api-client.ts:119-140 | The interceptor after its `await` is exactly the `Resume` step: re-send with the token, or clear the tokens and log out. |
| Calendar.CivilRoundTrip | apps/web/lib/ist-date.ts:22-30 | Splitting a day number into year, month and day and recombining them loses nothing, both ways round. |
| Calendar.SameOrder | apps/api/app/chat/datetime_ranges.py:95-163 | Dates and day numbers are the same order, so date comparisons are day comparisons. |
| Calendar.OneCalendar | apps/web/lib/ist-date.ts:55-60 | Python's ordinals and the browser's days differ by a constant, and their two weekday formulas name the same Monday. |
| IstBackend.SupportedDays | apps/api/app/core/timezone.py:28-34 | The day numbers that Python's dates can hold are those of the years 1 to 9999. |
| IstBackend.DaysTile | apps/api/app/core/timezone.py:37-50 | The half-open 24-hour IST days tile the timeline: an instant lies in day n exactly when n is its floor-division day. |
| IstBackend.Recombined | apps/api/app/core/timezone.py:47-47 | Replacing the time of day by zero is floor division by the day, for every instant. |
| IstBackend.DayBoundsExact | apps/api/app/core/timezone.py:37-50 | The day bounds are the two IST midnights around the reference, and exist exactly when all datetimes on the way do. |
| IstBackend.DayBoundsForDateExact | apps/api/app/core/timezone.py:62-71 | Noon UTC of a date lies in that date's IST day, so the bounds of a picked date are that day's. |
| IstFrontend.DateUtcExact | apps/web/lib/ist-date.ts:22-30 | `Date.UTC` rebuilds a date from its own parts exactly unless the year is 0 to 99. |
| IstFrontend.StartOfDayExact | apps/web/lib/ist-date.ts:22-30 | The browser's start of day is the floor-division IST midnight if and only if the IST year is not 0 to 99 (and the result is a valid Date). |
| IstFrontend.DayEndExact | apps/web/lib/ist-date.ts:35-37 | The day end is the last millisecond of the IST day under the same condition, both ways. |
| IstFrontend.WeekStartExact | apps/web/lib/ist-date.ts:55-60 | The week start is the IST midnight of the Monday on or before the instant under the same condition, both ways. |
| IstFrontend.MonthStartExact | apps/web/lib/ist-date.ts:63-67 | The month start is the IST midnight of the first of the instant's month under the same condition, both ways. |
| IstFrontend.ShortYearsBreakStartOfDay | apps/web/lib/ist-date.ts:22-30 | An instant of year 50 where it is not. |
| IstFrontend.StartsExact | apps/web/lib/ist-date.ts:22-67 | For instants of the supported range, day, week and month starts and the day end are the IST midnights of the day, its Monday and its first of the month. |
| DateRanges.PresetCovers | apps/api/app/chat/datetime_ranges.py:95-163 | For every "now" and every preset, an instant is in the resolved range exactly when its IST day has the property the name says (same month and year, same Monday week, within n days, and so on). |
| DateRanges.PresetsResolve | apps/api/app/chat/datetime_ranges.py:81-163 | Every preset resolves without error exactly when the shifted "now" is a datetime and its first and last day have IST bounds; `all_time` needs the end of today only, `last_24_hours` the moment a day ago. |
| DateRanges.PresetsAbut | apps/api/app/chat/datetime_ranges.py:103-146 | `yesterday`, `last_week`, `last_month`, `last_year` end one microsecond before `today`, `this_week`, `this_month`, `this_year` start, which contain "now". |
| DateRanges.PresetOrdered | apps/api/app/chat/datetime_ranges.py:100-101 | No preset is reversed except `all_time`, exactly on days before 2000. |
| DateRanges.LastDayExact | apps/api/app/chat/datetime_ranges.py:160-163 | The last day of the month is the day numbered by the month's length, leap February and December included. |
| DateRanges.PreviousPeriodsTile | apps/api/app/chat/datetime_ranges.py:223-237 | The k-th preceding window has the length of the range, abuts the one after it, and an instant before the range lies in exactly one of them: no gap, overlap or drift. |
| DateRanges.PreviousOfPreset | apps/api/app/chat/datetime_ranges.py:223-237 | The window before `today` is `yesterday`, that before `this_week` is `last_week`; for months and years exactly when the lengths are equal. |
| DateRanges.AnalyticsWindowDrifts | apps/api/app/services/analytics_service.py:126-128 | The analytics service's k-th window starts k microseconds later than the documented one and shares exactly one instant with the window after it. |
| DateText.DateKeyRoundTrip | apps/web/lib/ist-date.ts:87-93 | A printed date parses back to its day exactly for the years 1000 to 9999 and is rejected otherwise. |
| DateText.ParseDateExact | apps/api/app/chat/datetime_ranges.py:166-174 | A text is parsed as a date if and only if it is that date of the years 1 to 9999 written out, in the extended or the basic form. |
| DateText.TimestampExact | apps/api/app/chat/datetime_ranges.py:176-185 | A naive timestamp stands for the instant at which an IST clock shows it, an aware one for itself; only the former can be out of range. |
| DateText.PresetDecides | apps/api/app/chat/datetime_ranges.py:188-214 | Without dates the range covers exactly what the given preset names for this "now", or what the default names when none is given; an unknown name is refused. |
| DateText.DatesDecide | apps/api/app/chat/datetime_ranges.py:203-214 | With a date given, the preset and the default count for nothing. |
| DateAgreement.SameDayBounds | apps/api/app/core/timezone.py:37-50 | For every day the server has bounds for, browser and server start and end it at the same moment if and only if its year is 100 or later. |
| DateAgreement.KeyRoundTrip | apps/api/app/chat/datetime_ranges.py:166-174 | For the years 1000 to 9999 the printed IST date of an instant parses on the server to that day's midnight, or as an end to its last microsecond, and the noon-reference bounds agree; the date parser rejects the dates of all other years, and the result is then that of the timestamp parser, which is an input here. |
| DateAgreement.PickedRange | apps/api/app/chat/datetime_ranges.py:188-214 | Two dates picked in the browser and sent as text cover exactly the IST days from the first to the second, whatever the preset; in the wrong order they are refused. |
| DateAgreement.FromAlone | apps/api/app/chat/datetime_ranges.py:203-212 | A printed start alone covers exactly the instants from that IST day to "now", and is refused when "now" is on an earlier day. |
| DateAgreement.ToAlone | apps/api/app/chat/datetime_ranges.py:203-212 | A printed end alone covers exactly the instants from 2000-01-01, 00:00 UTC, through that IST day, and is refused on earlier days. |
| DateAgreement.PresetsAgree | apps/web/lib/ist-date.ts:125-152 | Whenever the server resolves the chat counterpart of a dashboard preset, both ranges are the same IST days if and only if the day the browser starts from is in the year 100 or later. |
| DateAgreement.SameNameDiffers | apps/web/lib/ist-date.ts:125-152 | The ranges the two resolvers return for "this week" and "this month" start together, and are equal exactly on Sundays and on the last day of a month (and not in short years). |
| LedgerDedup.ClassifyExact | apps/api/alembic/versions/c9f4a2e6b813_inventory_movement_race_constraint.py:167-200 | A group's later rows are to be deleted exactly when all its rows record one quantity; the first row is canonical either way. |
| LedgerDedup.OneRowPerKey | apps/api/alembic/versions/c9f4a2e6b813_inventory_movement_race_constraint.py:167-222 | Without a disagreeing group every key keeps one row, the earliest by (created_at, id). |
| LedgerDedup.NoConflictExact | apps/api/alembic/versions/c9f4a2e6b813_inventory_movement_race_constraint.py:203-253 | No group is in conflict if and only if any two rows with an order and equal variant, order and kind record the same quantity. |
| LedgerDedup.RowsKept | apps/api/alembic/versions/c9f4a2e6b813_inventory_movement_race_constraint.py:203-318 | When rows for the same variant, order and kind agree: every row without an order is kept, one row for each variant, order and kind is, and a dropped row has an earlier kept one, by created_at and then id, for the same movement with the same quantity. |
| LedgerDedup.DedupedCorrect | apps/api/alembic/versions/c9f4a2e6b813_inventory_movement_race_constraint.py:225-318 | The same by keys: unique keys, only old rows, every row without a key, and for each old (key, quantity_after) a kept row with the same. |
| LedgerDedup.SecondRunDeletesNothing | apps/api/alembic/versions/c9f4a2e6b813_inventory_movement_race_constraint.py:225-318 | After a successful run no key is duplicated and running again deletes nothing. |
| LedgerDedup.Database.DuplicateGroups | apps/api/alembic/versions/c9f4a2e6b813_inventory_movement_race_constraint.py:203-211 | A variant, order and kind are listed, once, if and only if two different rows have that variant, that order and that kind; rows without an order never are. |
| LedgerDedup.Database.DedupeInventoryMovements | apps/api/alembic/versions/c9f4a2e6b813_inventory_movement_race_constraint.py:225-318 | The loop over groups in any order deletes exactly the redundant rows, fails exactly when some group disagrees, and counts the resolved or the unresolved groups. |
| LedgerDedup.Database.CreateUniqueConstraint | apps/api/alembic/versions/c9f4a2e6b813_inventory_movement_race_constraint.py:321-327 | The constraint is created exactly when no key is duplicated. |
| LedgerDedup.Database.Upgrade | apps/api/alembic/versions/c9f4a2e6b813_inventory_movement_race_constraint.py:321-327 | All or nothing: it succeeds if and only if rows for the same variant, order and kind agree, then the table is de-duplicated and constrained; otherwise rows are as before, and quantities never change. |
| ShipmentSync.MessageMarker | apps/api/app/integrations/entity_sync.py:335-355 | A "no order found" message carries the failed-lookup marker exactly when the channel order id in it does. |
| ShipmentSync.LookupsAtMostOnce | apps/api/app/integrations/entity_sync.py:335-458 | Over every run of syncs, with the orders table changing at will and other failures recorded at any time, a live lookup for a shipment completes at most once, plus once for each error row about it that takes the memory's place; without such rows not at all once it is linked or remembered, for good. |
| ShipmentSync.OtherErrorDecidesMemory | apps/api/app/repositories/sync_error.py:25-44 | An error row of any other origin keeps or makes the memory if and only if it reads like a completed non-match. |
| ShipmentSync.ForgottenEveryTime | apps/api/app/services/sync_service.py:691-750 | The bound is reached, for every shipment and every other error that does not read like a non-match: n of them allow n + 1 completed lookups. |
| ShipmentSync.UnreadableStatusForgets | apps/api/app/services/sync_service.py:691-750 | A record whose status is no text, so that normalising it raises, makes a remembered shipment forgotten: n + 1 syncs with such records in between complete n + 1 lookups. |
| ShipmentSync.SkipsAreEarned | apps/api/app/integrations/entity_sync.py:335-358 | A lookup is skipped only after one was completed. |
| ShipmentSync.NewShipmentLookups | apps/api/app/integrations/entity_sync.py:335-458 | For a new shipment: completed lookups are at most one more than other error rows about it; a lookup is skipped only after one completed; without other error rows it is settled for good once one did; and until one did, every sync of the unresolved shipment looks it up. |
| ShipmentSync.FailedLookupRetried | apps/api/app/integrations/entity_sync.py:358-391 | A lookup that failed is tried again on the shipment's next sync exactly when its error does not read like a completed non-match. |
| ShipmentSync.AdapterFailuresAreInconclusive | apps/api/app/integrations/shiprocket/adapter.py:438-471 | Whatever the adapter met before in its process, including a block of the endpoint, no failure it raises reads like a completed non-match, so the shipment is looked up again; its messages and types are built as in its error classifier. |
| ShipmentSync.BlockedExact | apps/api/app/integrations/shiprocket/adapter.py:438-471 | The order endpoint is blocked if and only if some earlier call lacked authorization, and every lookup from then on fails as such without a call. |
| ShipmentSync.MarkerDefeatsTheMemory | apps/api/app/integrations/entity_sync.py:347-355 | A completed non-match is looked up again if and only if the channel order id shown for it, as far as the error table keeps it, contains the marker. |
| ShipmentSync.MarkerIdLookedUpEveryTime | apps/api/app/integrations/entity_sync.py:335-458 | A shipment whose channel order id is the marker completes n live lookups in n syncs. |
| ShipmentSync.MissingOrderIdIsRemembered | apps/api/app/integrations/entity_sync.py:434-458 | A record without an order id is remembered as a completed non-match although no lookup ran, and blocks later ones. |
| ShipmentSync.RememberedForGood | apps/api/app/integrations/entity_sync.py:335-458 | A remembered shipment whose records name no channel order id is never linked or looked up again in any run, whatever orders arrive and whatever Shiprocket would answer, unless another error row replaces the memory. |
| ShipmentSync.RememberedLinksOnlyByItsId | apps/api/app/integrations/entity_sync.py:285-355 | A remembered shipment is linked by a sync if and only if the record's own channel order id matches an order. |
| ShipmentSync.MemoryCostsTheLink | apps/api/app/integrations/entity_sync.py:335-458 | After the order that Shiprocket names has arrived, the remembered shipment stays unmatched in the very sync that links it when it is not remembered. |
| ShipmentSync.LinkJustified | apps/api/app/integrations/entity_sync.py:394-421 | A new link follows the record's own id first, then the answered one, then the only Shopify order with the answered id; a later one only when the earlier match nothing; and the recorded strategy says which. |
| ShipmentSync.LinkExact | apps/api/app/integrations/entity_sync.py:109-458 | With unique order numbers a shipment without an order is linked to an order if and only if that order is justified and, unless the record's own id names it, the lookup takes place. |
| ShipmentSync.KnownKeepsItsOrder | apps/api/app/integrations/entity_sync.py:262-278 | A record of a known shipment is stored with the order the shipment has, whatever the record says; only such records are. |
| ShipmentSync.OutcomeExact | apps/api/app/integrations/entity_sync.py:262-458 | The outcome in every case: known shipments keep their order, deserved orders are linked, failed lookups fail, and otherwise the id last heard of is reported, with the remark that it was skipped exactly when the memory is the reason. |
| ShipmentSync.LookupMatters | apps/api/app/integrations/entity_sync.py:285-392 | What a live lookup would answer matters if and only if the shipment is unknown, its own id matches nothing, it has an order id, and it is not remembered; exactly then one is made, and its failure is the outcome. |
| ShipmentSync.SharedNumberCrashes | apps/api/app/integrations/entity_sync.py:109-127 | Two orders that share the number asked for end the record with an error and no link. |
| ShipmentSync.OutcomeWritten | apps/api/app/services/sync_service.py:691-750 | What is written for each outcome: the outcome's order for the record's shipment, or one error row about it with the failure's type and the first thousand characters of its text. |
| ShipmentSync.LinksAreJustified | apps/api/app/integrations/entity_sync.py:262-458 | Over every run a shipment with an id keeps its order, though every later record of it is written again, and each new link was justified by the orders table of its moment: exact number with or without `#`, or a unique Shopify id. |
| ShipmentSync.ApiMatchJustified | apps/api/app/integrations/entity_sync.py:130-166 | The Shopify fallback links only the one order with that external id; an ambiguous id is no match. |
| ShipmentSync.OnlyIdlessShipmentsMove | apps/api/app/integrations/entity_sync.py:262-283 | With unique order numbers, a sync overwrites a shipment's order if and only if neither it nor the record has a shipment id and the record deserves another order. |
| ShipmentSync.IdlessShipmentsMove | apps/api/app/integrations/entity_sync.py:262-283 | With another numbered order at hand, some record overwrites the order of a shipment if and only if the shipment's id is empty; a record with that order's number does. |
| ShipmentSync.SyncStore.UpsertShipment | apps/api/app/integrations/entity_sync.py:262-458 | The step-by-step handler has the outcome of the decision function and writes exactly the link it returns, if it can be stored. |
| ShipmentSync.SyncStore.SyncRecord | apps/api/app/services/sync_service.py:691-750 | One record of the loop: a link on success; one error row with type and truncated message when handling, storing or anything before it, such as normalising, fails. |
| ShipmentSync.SyncStore.SyncPage | apps/api/app/services/sync_service.py:688-756 | A page is its records one after the other, normalisable or not, each failing on its own. |
| CatalogGate.NoDuplicates | apps/api/scripts/backfill_catalog_variants.py:540-562 | The GROUP BY check reports nothing exactly when the identifiers are distinct. |
| CatalogGate.BySkuFindsLast | apps/api/scripts/backfill_catalog_variants.py:616-617 | The dictionary by sku holds the last variant with each sku. |
| CatalogGate.GateExact | apps/api/scripts/backfill_catalog_variants.py:565-930 | The plan is unblocked if and only if the tables are clean: identifiers unique, every listed product with its title, count and roster by (sku, Shopify id), no listed variant in a foreign group, no other multi-variant product. |
| CatalogGate.RosterPartitioned | apps/api/scripts/backfill_catalog_variants.py:616-685 | Unblocked, each listed roster and the product's variants are in bijection by (sku, Shopify id), and of all planned members each such variant is exactly one, in its own group. |
| CatalogGate.PlanKeysDistinct | apps/api/scripts/backfill_catalog_variants.py:642-685 | No (product, name) is planned twice. |
| CatalogGate.PassesIffApplies | apps/api/scripts/backfill_catalog_variants.py:887-930 | The report's final invariant follows from an open gate, so it says PASS exactly when `--apply` would write. |
| CatalogGate.PassVouches | apps/api/scripts/backfill_catalog_variants.py:887-930 | For any manifest and plan, PASS means: nothing blocks, three groups for the canonical product, one for every other that has any, none for pending, unlisted or single-variant products. |
| CatalogGate.FinalInvariantExact | apps/api/scripts/backfill_catalog_variants.py:887-913 | Blocked or not, a report's final invariant holds if and only if the canonical product is in the database. |
| CatalogApply.Applied | apps/api/scripts/backfill_catalog_variants.py:933-974 | A plan that contradicts nothing in the tables is applied without reaching the overwrite guard and settles every group and variant. |
| CatalogApply.GuardExact | apps/api/scripts/backfill_catalog_variants.py:955-970 | Whoever calls the applier, it refuses a group if and only if some member that is not yet where it belongs was seen in another group or is gone. |
| CatalogApply.BackfillExact | apps/api/scripts/backfill_catalog_variants.py:933-994 | Unblocked: the guard is unreachable, every listed variant ends in the group of its product with its listed name, every listed group exists, the rows created are groups the manifest lists for a product that is there, in the display order it says, and no other row or field changed. |
| CatalogApply.SecondRunChangesNothing | apps/api/scripts/backfill_catalog_variants.py:933-994 | An immediate second plan is unblocked again and applying it leaves the tables as they are. |
| CatalogSession.Draft.ClassifyMember | apps/api/scripts/backfill_catalog_variants.py:738-763 | Appends a conflict exactly for a variant grouped under something else, and marks the already correct ones. |
| CatalogSession.Draft.Build | apps/api/scripts/backfill_catalog_variants.py:565-735 | The nested loops that fill the plan's lists compute the plan the gate theorem is about. |
| CatalogSession.Session.ApplyPlan | apps/api/scripts/backfill_catalog_variants.py:933-974 | One transaction: the tables become those of the whole plan or stay as they were. |
| CatalogSession.Session.Run | apps/api/scripts/backfill_catalog_variants.py:977-994 | Nothing is written without `--apply` or when blocked; an unblocked `--apply` on schema-valid tables always commits. |
| ImageBackfill.SweepExact | apps/api/scripts/backfill_shopify_images.py:211-313 | The sweep ends without error exactly when every page, node and lookup was fine; then it classified each product and variant of all pages once, in order, and both accounts add up. |
| ImageBackfill.EveryRecordCounted | apps/api/scripts/backfill_shopify_images.py:130-168 | Matched, missing and duplicate records together are all records. |
| ImageBackfill.RecordExact | apps/api/scripts/backfill_shopify_images.py:188-276 | An item's record, told by the rows: missing when none has its Shopify id, a duplicate when two have, and otherwise about the one row that has, with an update exactly when Shopify has a non-empty image and the row has another or none. |
| ImageBackfill.BlockingCountExact | apps/api/scripts/backfill_shopify_images.py:316-375 | The printed number of blocking problems is zero exactly when the gate is open, though it ignores the two invariants. |
| ImageBackfill.TableWritten | apps/api/scripts/backfill_shopify_images.py:422-449 | Writing one table cannot meet a vanished row, changes only images and leaves rows without a Shopify image alone; planning again has no update, and writing again changes nothing, exactly when no id has two images. |
| ImageBackfill.BackfillExact | apps/api/scripts/backfill_shopify_images.py:279-449 | The same for a whole unblocked run over any pages: the second plan is unblocked, and its `--apply` leaves the tables as they are if and only if no Shopify id came with two different images. |
| ImageBackfill.SecondRunChangesNothing | apps/api/scripts/backfill_shopify_images.py:279-449 | With distinct Shopify ids in the sweep a second `--apply` is a no-op. |
| ImageBackfill.Session.BuildPlan | apps/api/scripts/backfill_shopify_images.py:211-313 | After any number of answers the page loop has computed the plan of these answers, has made exactly the fetches the sweep needs, the first without a cursor and each later one with the cursor the page before named, and has ended exactly at a last page or an error. |
| ImageBackfill.FetchesExact | apps/api/scripts/backfill_shopify_images.py:211-223 | Without an error a sweep fetches every page up to the last one and no more, an error stops it at its page, and the answers after the last fetch do not matter. |
| ImageBackfill.EndExact | apps/api/scripts/backfill_shopify_images.py:211-223 | The sweep goes on past exactly the pages that say there is more and name where; what it delivers are the nodes of the pages up to its end. |
| ImageBackfill.Session.WriteImages | apps/api/scripts/backfill_shopify_images.py:422-449 | All updates are committed and counted, or nothing is written. |
| ImageBackfill.RefusalExact | apps/api/scripts/backfill_shopify_images.py:422-449 | Whoever calls it, the write is refused if and only if the plan is blocked or a row to update is gone. |
| ImageBackfill.Session.Run | apps/api/scripts/backfill_shopify_images.py:452-501 | Nothing is written without `--apply`, when blocked, or while the sweep goes on; otherwise the whole plan is. |
| OrderNavigation.SlicesAreStable | apps/api/app/schemas/common.py:27-38 | Cutting a list into pages of the requested size gives back the list, non-empty pages and the page count the server reports. |
| OrderNavigation.Navigator.PressKey | apps/web/lib/use-order-navigation.ts:31-55 | A key press is the press step: a move inside the window, the end notice, or one fetch of the adjacent page. |
| OrderNavigation.Navigator.FetchEnds | apps/web/lib/use-order-navigation.ts:57-87 | The end of a fetch is the receive step: merge and move, end notice, or failure notice. |
| OrderNavigation.PressElsewhere | apps/web/lib/use-order-navigation.ts:33-43 | While a page is on its way a press does nothing; without a stored list, or on an order not in it, it only says so. |
| OrderNavigation.PressInList | apps/web/lib/use-order-navigation.ts:45-55 | On order i of the stored list a press shows its neighbour, asks for the neighbouring page, or says that this is the end. |
| OrderNavigation.FetchEndsExact | apps/web/lib/use-order-navigation.ts:57-87 | A failed fetch is only reported; a page is merged into the list stored when it was asked for, and its near end is shown; an empty page is the end. |
| OrderNavigation.PressWalks | apps/web/lib/use-order-navigation.ts:31-55 | On a one-way walk a press moves to the neighbouring order of the list, starts a fetch exactly at the boundary with orders left, or reports the end exactly when none is left. |
| OrderNavigation.ReceiveWalks | apps/web/lib/telecaller-order-sequence.ts:66-105 | The answer grows the window by exactly its page at the right end and shows the next order; a failure changes neither. |
| OrderNavigation.OneWayRunExact | apps/web/lib/use-order-navigation.ts:31-89 | From any order on any page, J-only (or K-only) runs with failing fetches visit the next orders of the list, each once and in order, and the window is exactly the pages from the first to the current one. |
| OrderNavigation.RoundsVisitAll | apps/web/lib/use-order-navigation.ts:31-89 | When fetches succeed, n presses visit the next n orders, and at the end of the list the screen stays and says so. |
| OrderNavigation.MergeExact | apps/web/lib/telecaller-order-sequence.ts:66-105 | Merging any page into any window: other filters or a distant page replace it; the result has no repeats, and is then a run of consecutive pages, exactly unless the page is next to the stored number on a side where the window goes on. |
| OrderNavigation.CrossingExact | apps/web/lib/telecaller-order-sequence.ts:84-105 | A boundary crossing keeps the window free of repeats, and exactly the pages held plus the next, if and only if the stored page number is that of the last page held in that direction. |
| OrderNavigation.CrossingGrows | apps/web/lib/use-order-navigation.ts:60-83 | In that case the order shown is the next one of the list. |
| OrderNavigation.TurningTraps | apps/web/lib/use-order-navigation.ts:31-89 | In the other case J never again reaches the rest of the list, for any number of presses. |
| OrderNavigation.TurningHappens | apps/web/lib/use-order-navigation.ts:31-89 | With two pages: J over the boundary, K back and K again puts the first page into the window twice. |
| ChatLoop.SanitizeHistory | apps/api/app/chat/service.py:214-223 | The loop keeps the usable turns of the last ones, in order. |
| ChatLoop.HistoryIsClean | apps/api/app/chat/service.py:214-223 | Only user and assistant turns with text reach the model, trimmed, and each such turn does. |
| ChatLoop.HistoryTurnByTurn | apps/api/app/chat/service.py:214-223 | Turn by turn: a user or assistant turn with text is kept in its place under its own role, any other is dropped. |
| ChatLoop.HistoryIsBounded | apps/api/app/chat/service.py:214-223 | The last turns, as many as the limit says, are looked at, and for a limit of 0 all of them; what is sent is within the limit if and only if the limit is not 0 or no turn has anything to send. |
| ChatLoop.Finalize | apps/api/app/chat/service.py:168-211 | Prose is returned exactly when no tool was attempted or one succeeded and there is text. |
| ChatLoop.AnswerTurn | apps/api/app/chat/service.py:71-157 | For every model and every tool behaviour the loop makes exactly one completion more than the tool rounds it ran, and its result and conversation are those of these rounds. |
| ChatLoop.LastExact | apps/api/app/chat/service.py:89-132 | The rounds end at the first completion without tool calls, or after the limit: at most the limit plus one completions. |
| ChatLoop.EveryCallAnswered | apps/api/app/chat/service.py:107-129 | In the whole conversation every tool call is followed, in order, by exactly one reply with its id, or its name when it has none. |
| ChatLoop.RepliesExact | apps/api/app/chat/service.py:122-129 | Reply number k of the conversation is for call number k, with its id or name, and carries the content of tool run number k. |
| ChatLoop.RequestsExact | apps/api/app/chat/service.py:106-107 | The model reads its own calls back, completion by completion. |
| ChatLoop.SourcesExact | apps/api/app/chat/service.py:113-118 | The sources have no duplicates and are exactly those of the tool runs that succeeded. |
| ChatLoop.DataExact | apps/api/app/chat/service.py:119-120 | The data under a tool's name is that of its last successful run with data. |
| ChatLoop.AnswersAreBacked | apps/api/app/chat/service.py:144-211 | Model prose comes back exactly when the last completion gave some and no tool ran or one succeeded; error texts only after a success; "partial" exactly when data came back but something failed; tools in the order of their calls, and error code and iterations told by how the turn ended. |
| IndianFormat.GroupDigits | apps/api/app/chat/formatting.py:33-43 | The loop that splits pairs off the head gives the grouped number. |
| IndianFormat.GroupIndianText | apps/api/app/chat/formatting.py:26-50 | The step-by-step printer gives the text that the round-trip lemmas are about. |
| IndianFormat.Ungrouped | apps/api/app/chat/formatting.py:33-43 | Taking the separators out gives the digits back. |
| IndianFormat.GroupsShape | apps/api/app/chat/formatting.py:33-43 | Up to three digits stay one group; otherwise the last group has three digits, earlier ones two, the first one or two. |
| IndianFormat.RoundTripExact | apps/api/app/chat/formatting.py:26-50 | Reading a printed amount gives it back if and only if it has at most two decimals, and is within half a paisa if and only if its fraction is below .995. |
| IndianFormat.PrintingIsInjective | apps/api/app/chat/formatting.py:26-50 | No two amounts with at most two decimals are printed alike. |
| IndianFormat.RupeesWithPaise | apps/api/app/chat/formatting.py:53-60 | Two digits follow the point, and the text reads as the rounded amount, exactly when the fraction is below .995. |
| IndianFormat.RupeesPlain | apps/api/app/chat/formatting.py:53-60 | As the tools print amounts: the rupee sign, then the sign and the grouped amount, without zeros at the end of its decimals; reading it gives the amount back if and only if it has at most two decimals. |
| IndianFormat.CarryLost | apps/api/app/chat/formatting.py:44-49 | 1.995 is printed as 1. |
| UrlFilters.UrlState.Filters | apps/web/lib/use-url-filters.ts:23-35 | The reading loop gives every key its value in the rendered URL, or the default when absent or empty. |
| UrlFilters.ReadExact | apps/web/lib/use-url-filters.ts:23-35 | A key is read by its first entry, as a number where the default is one; without an entry, or with an empty one, it is the default. |
| UrlFilters.UrlState.SetFilters | apps/web/lib/use-url-filters.ts:37-71 | A call works on the query of its render: after a render the URL ends as the one asked for, skipped or not, and there is a navigation exactly when that differs. |
| UrlFilters.WrittenKeyReads | apps/web/lib/use-url-filters.ts:40-47 | Whatever value is written for a key, it reads as the text that is stored, taken as a number exactly where the default is one; a blank or the default resets it; other keys read as before. |
| UrlFilters.FitsExact | apps/web/lib/use-url-filters.ts:23-47 | A value comes back as it was if and only if it is blank, the default, a number where the default is one, or a text where it is none. |
| UrlFilters.PatchRefines | apps/web/lib/use-url-filters.ts:23-71 | For every patch the types admit, on every URL: reading after it is record update of the reading before if and only if every patched value fits its default in this sense. |
| UrlFilters.NumberBecomesText | apps/web/lib/use-url-filters.ts:23-47 | A number patched on a key whose default is undefined reads back as its text. |
| UrlFilters.FiltersRefineRecord | apps/web/lib/use-url-filters.ts:23-71 | Reading after any sequence of patches whose values fit, from any URL, is plain record update: blank or default resets, the page resets unless patched. |
| UrlFilters.SameRenderForgets | apps/web/lib/use-url-filters.ts:37-72 | Of two calls in one render the second, unless it asks for nothing, decides alone; the filters read are those of two rendered calls if and only if the keys only the first patched had their values already. |
| UrlFilters.OthersSurvive | apps/web/lib/use-url-filters.ts:38-51 | All entries the hook does not own survive every sequence, order and repeats included. |
| UrlFilters.SkipExact | apps/web/lib/use-url-filters.ts:51-71 | A navigation is skipped exactly when every patched key already stands in the URL as it would be written and there is no page entry to drop. |
| UrlFilters.RepeatIsSkipped | apps/web/lib/use-url-filters.ts:37-71 | Setting the same patch twice navigates at most once. |
| UrlFilters.EchoDropsPage | apps/web/lib/use-url-filters.ts:48-71 | Setting a filter to its own value still navigates when the URL names a page, and resets exactly the page. |

## Left out

- Token refresh: checks for a missing `window`, the `/login` page load itself, and the order of microtasks; every order of the enabled steps is allowed instead, which includes the real one.
- Calendar: `strip`, case folding and underscore rules of preset names, labels and span wording, ISO week dates, and the parser of full timestamps, whose outcome is an input. A preset given as an empty text is one not given.
- Ledger migration: printed reports, the reference-only read of the current quantity, SQL and transaction mechanics; a failed upgrade restores the rows as a transaction does. The `downgrade` only drops the constraint.
- ShipmentSync.NewShipmentLookups: assumes what its `requires` names: unique order numbers, an order id on every record, an adapter that can look orders up, failures of lookups, storing and normalising that do not read like non-matches, and channel ids without the marker; the lemmas beside it show what happens otherwise.
- Shipment matching: how the service stores a shipment (it stores the order it is given, or fails), shipment rows that other flows create, escape sequences and quote choice in Python's `repr`, the timestamp in the skip text, the adapter's retries and logins (a call is its last outcome), exceptions of libraries it does not wrap, such as an answer that is not JSON (in the runs these are among the arbitrary failures), ties in the errors' creation times, log lines and the coverage diagnostic.
- Catalog backfill: the concrete manifest is any well-formed one, counts and wording of the report, the list of pending products it prints, and `unmapped_variants`, which nothing ever fills. Ids are numbers, and a new group's id is one no row has. Columns the script never reads are not modelled, except the quantity.
- Image backfill: normalisation of raw nodes (a node is normalised or malformed), authentication before the sweep, and which exception gives which error text; an error text is never empty.
- Order navigation: failures of the browser's storage, key presses before React has shown the pending state, a second press inside the window before the route has changed (it shows the same order again), the keyboard filter, and lists that change under the walk; the server's list is stable.
- Chat loop: decoding of tool arguments, the prompt text, logging and the model's name; a tool run that raises instead of returning an outcome.
- IndianFormat.GroupIndian: amounts are exact reals, so Python's 28-digit decimal context, its NaN and infinities, and the conversion of other types do not show.
- UrlFilters.FiltersRefineRecord: numbers in patches are whole, and NaN is no default; a patch names keys of the defaults only; percent-encoding is not modelled (queries are compared as lists of decoded entries), nor is the order JavaScript gives integer-like keys.
- Marketplace ledgers, inventory dispatch arithmetic, telecalling, permissions, queries and UI wiring: separate components, not part of this model.
