# Verified model of the product monitor

A Dafny model of a service that polls shop pages for in-stock offers, keeps one
row per availability in a table, and notifies once when an offer appears and
again when its price drops. The model has three parts.

**The reconcile-and-notify engine.** `Store.dfy` is the keyed table, `Tick.dfy`
says as a function what one tick of one product does, `Monitor.dfy` is the loop
itself as a class that changes store and metrics in place, and `Steps.dfy` is the
same tick cut into steps, one for every poll, store operation, notification and
counter update. `Monitor.Monitor.Tick` is proved equal to both. `Watchers.dfy`
lets all product watchers interleave on one table, with crashes anywhere. The
laws over whole runs are in `KeyTrace.dfy`, `Reconcile.dfy`, `RunLaw.dfy` (without
faults), `FaultLaw.dfy` (with any), `PollLaw.dfy` (from a poll to the log, the
counters and the endpoint), `FilterLaw.dfy`, `Potential.dfy` and `MetricsLaw.dfy`. `Baseline.dfy` says exactly
when price drops are noticed and when a pending one survives; `Interference.dfy`
and `Isolation.dfy` say exactly when products leave each other alone.

**The text kernel of the scrapers.** `Amount.dfy` (German and plain prices),
`FlareSolverr.dfy` (unwrapping a browser-rendered payload), `ProductToken.dfy`
(article number of a URL), `WebCheck.dfy` (the marker verdict), on the string
primitives of `Text.dfy`.

**Three sources with loops or keys of their own.** `Shopify.dfy` (pagination),
`BauhausSession.dfy` (session cache and retry), `Obi.dfy` (repeats of a key over
postal codes), and `Keys.dfy` for when two dedup keys can be equal.

## How the outside world appears

Whatever code outside the model decides is a parameter. One tick is given a
`Round`: the result of every poll (or its failure), whether the stored keys load
and in which order the database hands them out, whose deletes fail, and for every
offer whether lookup, notification and write succeed. A failed store operation
has no effect. The laws hold for all rounds, so for every pattern of faults. The
query for stored keys has no `ORDER BY`; its order is an oracle that can be any
enumeration (`DedupStore.ArrangeOfEnumeration`). Clocks are integers that the
caller supplies. Prices are exact numbers, and a missing price is `None`.

Presence of a key means that it was polled successfully and passed both filters:
a source that fails contributes nothing, so its keys go stale like sold-out ones.

## Assumptions of the interleaving laws

Products have distinct names, and no key is ever reported to two products
(`Watchers.DistinctNames`, `Watchers.ActsOwned`); stored rows carry their owner's
name. The configuration check (internal/config/config.go:215-228) enforces neither
of the first two. They are exactly what is needed: `Isolation.IsolatedExactly` shows
that every interleaving leaves each product as it would be alone if and only if
names are distinct and reported key sets disjoint. Everything about a single tick
(`Reconcile`) and the filters (`FilterLaw`) holds without them.

## Where the code and its documentation disagree

The model follows the code.

- The repository's README.md:20 says that offerings still in stock just refresh
  their last check. The code also overwrites stock and price and notifies again
  when the price drops (internal/monitor/monitor.go:142-157). They are just
  refreshed exactly when stock and price repeat (`RunLaw.JustRefreshedExactly`).
- internal/source/product.go:12-13 says that nothing keys dedup on the product name. The
  stale-row query selects by it (internal/store/store.go:123-124), so two products
  with one name delete each other's rows (`Interference.SharedNameRenotifies`);
  exactly when products are safe from each other is `Isolation.IsolatedExactly`.
- internal/source/webcheck.go:145-146 says an error surfaces only when every URL failed. The
  code reports one as soon as no URL yields an offer and at least one failed
  (`WebCheck.OneOfTwoFails`); `WebCheck.ErrorMeansAllFailedExactly` says for which
  fetches the comment is right.
- internal/monitor/monitor.go:143 speaks of a drop below the last seen price, but an
  unpriced sighting replaces that price by nothing, and a drop across it is not
  noticed. `Baseline.DropsAreNoticedExactly` says for which patterns of sightings all
  drops are noticed, `Baseline.UnpricedSightingHidesDrop` shows a run that misses one.
- internal/monitor/monitor.go:146 promises that a drop whose notification failed is
  retried on the next cycle. It is not when that cycle sees the key without a price:
  the drop is then stored in silence (`Baseline.UnpricedSightingSwallowsDrop`).
  `Baseline.PendingDropSurvivesExactly` says when a pending drop survives.
- internal/source/webcheck.go:80-81 promises German formats. Whole euros with
  grouping dots are read right exactly below a thousand (`Amount.WholeGroupedReadRight`).

## Model

| member | source | states |
|---|---|---|
| DedupStore.Store.Record | internal/store/store.go:71-86 | An insert succeeds exactly when the database does and the primary key is free; then the table gains this one row and nothing else changes |
| DedupStore.Store.Lookup | internal/store/store.go:90-104 | Whether the key has a row and, if so, its price; a row without a price is known but unpriced |
| DedupStore.Store.Touch | internal/store/store.go:107-121 | Only stock and price of the one row change, the price even to none; the product column and all other rows stay; a missing row stays missing |
| DedupStore.Store.ProductKeys | internal/store/store.go:123-138 | Every key of the product exactly once, in some order |
| DedupStore.Store.Delete | internal/store/store.go:140-146 | Exactly this key disappears, or nothing when the delete fails |
| DedupStore.ArrangeOfEnumeration | internal/store/store.go:124 | Every order in which the query could return the keys is covered by the order oracle |
| WithProduct.StampInPlace | internal/source/product.go:24-31 | Every element of the source's slice carries the product's name and cap afterwards, and every other field is as before |
| WithProduct.EffectiveCap | internal/config/config.go:50-55 | A positive own cap wins, otherwise the global one applies; so there is no cap exactly when neither product nor service sets one |
| Monitor.Monitor.CheckLocal | internal/monitor/monitor.go:174-185 | Rejects exactly the in-store offers that are not targeted and match no prefix, when there are prefixes |
| Monitor.Monitor.AvailStats | internal/monitor/monitor.go:213-222 | Total stock, and the least known price, or none exactly when no price is known |
| Monitor.Monitor.Filter | internal/monitor/monitor.go:99-107 | Appends exactly the offers within budget and local, in order |
| Monitor.Monitor.DropStale | internal/monitor/monitor.go:110-128 | Deletes the product's rows that are not offered, each unless its own delete fails, and nothing when the keys do not load |
| Monitor.Monitor.HandleOffer | internal/monitor/monitor.go:135-169 | Lookup, then notify and write in the order and under the conditions of the protocol, for every combination of faults |
| Monitor.Monitor.Tick | internal/monitor/monitor.go:83-170 | Store and log after a tick are those of the declarative tick and those of the step machine run undisturbed to its end; its first events report its polls one by one; metrics stay in agreement with the log |
| PollLaw.TickReports | internal/monitor/monitor.go:85-128 | A tick logs first, poll by poll, source, time and outcome, and of a success the number, total stock and least price of the offers; then a delete, with its outcome, for exactly the stored keys that are no longer offered |
| PollLaw.StockAdds | internal/monitor/monitor.go:213-222 | The total stock is a sum: additive, and an offer's own stock for a single one |
| Steps.FinishIsTick | internal/monitor/monitor.go:83-170 | The step-by-step tick, run undisturbed, is the declarative tick: same rows, same events in the same order |
| Steps.AloneIsTicks | internal/monitor/monitor.go:65-80 | From any moment between two ticks, any crash-free sequence of steps and starts of one watcher amounts to the begun ticks run one after the other |
| Watchers.NonInterference | internal/monitor/monitor.go:51-170 | In every interleaving, with any faults and crashes, each product ends with the rows, position and event sequence it would have alone on its own rows |
| KeyTrace.EveryRunSpells | internal/monitor/monitor.go:115-169 | In every interleaved run, with faults and crashes, the events of each key follow a small protocol whose state matches table and program counter |
| KeyTrace.Conservation | internal/monitor/monitor.go:142-167 | Delivered notifications for a key are its inserts, plus updates that lower a known price, plus those whose write failed or was cut off by a crash, plus at most one whose write is still to come |
| KeyTrace.LogExplainsRow | internal/store/store.go:71-146 | Replaying a key's events from the initial table gives its row in every reachable state |
| KeyTrace.DropsAreAttempted | internal/monitor/monitor.go:142-157 | In every run a lookup that finds a drop is followed by a notification attempt, a write that lowers a known price by a delivered notification of that very offer right before it, and a failed notification is never followed by a write |
| KeyTrace.DropIsAnnouncedExactly | internal/monitor/monitor.go:142-157 | Whenever a living row gets from p, or from no price, to a known price below p, some last write took it there, and that write was announced if and only if it replaced a known price |
| KeyTrace.DropNeverSwallowed | internal/monitor/monitor.go:142-157 | As long as no stored sighting in between lacks a price: a living row gets from p to a known price below p only through a write below p right after the delivered notification of that very offer, whatever fails or crashes in between |
| Baseline.PendingDropSurvivesExactly | internal/monitor/monitor.go:110-169 | For any pattern of what ticks see of a key, repeats and absences included, and of what fails: in all runs that follow it the row never falls below its price before a delivery, if and only if no stored sighting without a price is followed by a stored one with a price before the row is removed |
| Baseline.UnpricedSightingSwallowsDrop | internal/store/store.go:107-121 | The failing run: a drop whose notification failed is stored in silence after one unpriced tick, and delivered without that tick |
| Baseline.DropsAreNoticedExactly | internal/monitor/monitor.go:142-157 | In all fault-free runs with a given pattern of seen, unpriced and absent sightings a key is notified once per block and once per drop below the last known price, if and only if in that pattern no priced sighting follows an unpriced one in a block that has known a price |
| Baseline.DescentsAreDrops | internal/monitor/monitor.go:143-144 | Descents between neighbours never exceed the drops below the last known price, and equal them without such a hole |
| KeyTrace.InsertWasAnnounced | internal/monitor/monitor.go:159-168 | Every insert comes right after a delivered notification of the same offer, sent while the key had no row |
| KeyTrace.NoSilentRow | internal/monitor/monitor.go:159-168 | In every reachable state a row whose key had none at the start, or at any moment since, was announced by a delivered notification since its key last had none |
| Reconcile.HandleExact | internal/store/store.go:71-121 | Column by column: a new row tells its offer; a known one takes over stock and price and nothing else, unless an operation fails or a drop is not delivered |
| Reconcile.ReconcileExact | internal/monitor/monitor.go:110-169 | After any tick with any faults: offered rows survive with their identity; unoffered ones survive exactly when another product's, or the keys did not load, or the own delete failed; a row appears exactly when some offer of the key met no fault, and has that offer's identity |
| Reconcile.CurrentExact | internal/monitor/monitor.go:84-108 | The tick's list is exactly the offers of successful polls, stamped with name and cap, that are within the cap or unpriced, and online, targeted, unfiltered or near: none of these is left out |
| Reconcile.CurrentInOrder | internal/monitor/monitor.go:84-108 | It has each of them once, in the order in which they were returned, poll by poll |
| Reconcile.LastOfferIsStored | internal/monitor/monitor.go:135-169 | After a fault-free tick every wanted offer, wherever it was returned, has a row, holding stock and price of the last wanted offer returned with that key |
| Reconcile.AtLeastOnce | internal/monitor/monitor.go:135-169 | A key offered in every tick and still without a row met a failing lookup, notifier or write on every single offer |
| RunLaw.TickLaw | internal/monitor/monitor.go:110-169 | One fault-free tick sends exactly the notifications its sightings add, and leaves the last sighted price stored |
| RunLaw.TicksLaw | internal/monitor/monitor.go:64-170 | From any table of the product, fault-free ticks deliver exactly the notifications their sightings add to what the table remembers |
| RunLaw.WholeRunLaw | internal/monitor/monitor.go:64-170 | In a fault-free run from an empty table a key is notified once per maximal block of presence and once per strict descent between neighbouring known prices, however often a tick repeats it |
| RunLaw.InterleavedTicks | internal/monitor/monitor.go:51-80 | Over any crash-free stretch of a run between two moments when it is idle, a watcher among others adds the rows and events of its own ticks run in sequence on its own rows |
| RunLaw.InterleavedRunLaw | internal/monitor/monitor.go:51-170 | The notification law holds for every product over every fault-free stretch of every interleaving, going on from what the table remembers |
| RunLaw.InterleavedAtLeastOnce | internal/monitor/monitor.go:51-170 | Over any crash-free stretch, after whatever went before: a key offered in all of its product's ticks there and without a row at the end met a fault on every single offer |
| RunLaw.StretchOfRun | internal/monitor/monitor.go:51-80 | Any run, crashes and faults included, can be cut into such stretches wherever the watcher is between ticks |
| RunLaw.JustRefreshedExactly | internal/monitor/monitor.go:142-157 | An offer still in stock leaves its row as it is and notifies nobody if and only if it repeats stock and price |
| FaultLaw.FaultyRunLaw | internal/monitor/monitor.go:64-170 | Over any ticks with any failing polls, loads, deletes, lookups, notifications and writes, a key's row and the exact number of its delivered notifications follow from what each tick saw of it |
| FaultLaw.InterleavedFaultyRunLaw | internal/monitor/monitor.go:51-170 | The same for every product over every crash-free stretch of every interleaving |
| FilterLaw.OnlyWantedOffers | internal/monitor/monitor.go:99-107 | In every run of any configuration no event is ever about an offer over its cap, outside the local area, or stamped for another product |
| FilterLaw.OnlyWantedNotifications | internal/monitor/monitor.go:172-198 | From a start, every notification attempt is for an offer its product wants |
| FilterLaw.OnlyWithinCaps | cmd/product-monitor/main.go:61-66 | From the configuration to the notification: a known price is within the product's own cap, or within the global one when it has none |
| Potential.DropsAreBounded | internal/monitor/monitor.go:142-157 | From any moment when a priced row is at rest, at start-up or later, while it lives with known prices on a grid with least step u and no lost write: its drop notifications, at u each, are at most its price minus the last seen one plus all observed rises |
| Potential.CentDropsAreBounded | internal/monitor/monitor.go:142-157 | The same for prices in cents |
| Interference.SharedKeyIsTakenOver | internal/config/config.go:215-228 | Two products that report one key: the second is not told of an offer it would be told of alone |
| Interference.SharedNameRenotifies | internal/store/store.go:123-138 | Two products with one name: a tick of the second drops the first's row, and the first notifies again an offer that never left |
| Baseline.UnpricedSightingHidesDrop | internal/store/store.go:107-121 | The failing run: a fault-free run whose price drops across one unpriced sighting notifies once, and twice without that sighting |
| Isolation.IsolatedExactly | internal/monitor/monitor.go:51-170 | For products that each have a key to report: every run, in any interleaving and with any faults and crashes, leaves each product with the rows, position and events it would have alone, if and only if names are distinct and no key can be reported to two products |
| Metrics.Recorder.Ensure | internal/metrics/metrics.go:37-44 | The state of a source, created as zero on first use; no other source changes |
| Metrics.Recorder.ObserveCheck | internal/metrics/metrics.go:47-67 | A failed check only moves time, success and error counter and keeps the gauges; a successful one replaces them all |
| Metrics.Recorder.ObserveNotification | internal/metrics/metrics.go:70-74 | Exactly one source's notification counter goes up by one |
| MetricsLaw.MetricsAgree | internal/metrics/metrics.go:46-74 | For every sequence of events, a source's counters are its polls by outcome, and its gauges those of its last poll, or of its last successful one |
| MetricsLaw.MetricsTellTheTruth | internal/monitor/monitor.go:85-167 | In every reachable state of every interleaving, with faults and crashes, a source's notification counter is its deliveries since the last start less those about to be counted, writes that failed included; exact when all watchers are between ticks |
| PollLaw.ChecksAreCounted | internal/metrics/metrics.go:46-58 | Over any crash-free stretch of an interleaving a source's check counters go up by exactly its successful and its failed polls in the ticks that all watchers begin |
| PollLaw.NothingIsMadeUp | internal/monitor/monitor.go:83-170 | In every run every poll event reports a poll of a begun tick, and every lookup, notification and write is for an offer such a poll returned, stamped and wanted |
| PollLaw.EndpointShowsLastPoll | internal/metrics/metrics.go:84-131 | In every reachable state the endpoint shows, of a source polled successfully, the number, total stock and least known price of the offers of its last successful poll |
| Exposition.SortedNames | internal/metrics/metrics.go:88-92 | The sources in strictly increasing order, each exactly once |
| Exposition.Write | internal/metrics/metrics.go:84-131 | The samples are sorted, without duplicates, and exactly those of the state |
| Exposition.EachFamilyShows | internal/metrics/metrics.go:94-130 | Family by family, which quantity of a source its sample shows; the price sample is there exactly when a price is known |
| Exposition.NothingElseShows | internal/metrics/metrics.go:94-130 | Only observed sources and only the success and error labels appear |
| Exposition.AnswerInOrder | internal/metrics/metrics.go:92-130 | Families in the source's order, each by lexicographically increasing source name, success before error |
| Exposition.AnswerDeterminesState | internal/metrics/metrics.go:84-131 | The samples are enough to rebuild every source's observable state |
| Exposition.AnswerIsUnique | internal/metrics/metrics.go:84-131 | Content and order leave no choice: one state has one answer |
| Amount.GermanWordParses | internal/source/webcheck.go:82-97 | Every word of the German price grammar (internal/source/bobselektro.go:20) parses to the cents its digits denote, and to nothing exactly when that is zero |
| Amount.AmountRoundTrip | internal/source/webcheck.go:80-97 | Every number of cents is read back exactly from its grouped German, its comma and its point form |
| Amount.DecimalsRead | internal/source/webcheck.go:92-96 | Digits with at most one point denote their decimal value, and a lone point nothing |
| Amount.OnlyPricesParse | internal/source/webcheck.go:82-97 | Whatever parses has only digits, dots and commas, and is positive |
| Amount.WholeGroupedReadRight | internal/source/webcheck.go:86-91 | A grouped amount without decimals is read right if and only if it is below a thousand |
| ProductToken.MatchesExact | internal/source/webcheck.go:23 | The pattern's matches are exactly the maximal digit runs of length six or more, left to right |
| ProductToken.Token | internal/source/webcheck.go:100-108 | The leftmost of the longest such runs; empty exactly when there is none |
| WebCheck.Decide | internal/source/webcheck.go:164-201 | There is a result exactly when the token is on the page or not required, no out-of-stock marker is, and some in-stock or pre-order marker is; it is flagged exactly when a pre-order marker is |
| WebCheck.TokenGuards | internal/source/webcheck.go:169-175 | A page without the product's token yields nothing whatever its markers; on any other page the token makes no difference |
| WebCheck.NormalIsLower | internal/source/webcheck.go:164-167 | A page without escaped slashes is searched as itself in lower case |
| WebCheck.LowerReads | internal/source/webcheck.go:164 | Lower-casing identifies exactly the two cases of an ASCII letter and leaves no capitals |
| WebCheck.CaseIsIrrelevant | internal/source/webcheck.go:164-201 | The verdict does not depend on the ASCII case of page, token or markers |
| WebCheck.EscapingIgnoredExactly | internal/source/webcheck.go:164-201 | Escaping every slash of a page changes no verdict of any scraper if and only if the page has no escaped slash already |
| WebCheck.HitsPersistExactly | internal/source/webcheck.go:164-181 | A marker's hits persist in every superpage if and only if the marker does not end in a backslash |
| WebCheck.OutOfStockPersists | internal/source/webcheck.go:177-181 | An out-of-stock page stays out of stock whatever is put before and after it |
| WebCheck.MarkersAreMonotone | internal/source/webcheck.go:177-201 | More out-of-stock markers only remove results; more in-stock and pre-order markers only add them |
| WebCheck.Check | internal/source/webcheck.go:132-151 | The offers of all good URLs in order; an error exactly when there is none and some page broke |
| WebCheck.OffersTell | internal/source/webcheck.go:132-223 | One offer for each URL whose page is in stock, in the order of the URLs, and no other; each tells its price as read off the normalised page, its flag, channel, location and key |
| WebCheck.ErrorMeansAllFailedExactly | internal/source/webcheck.go:145-149 | For given fetches every scraper errs only if every URL failed, if and only if none failed or all did |
| WebCheck.OneOfTwoFails | internal/source/webcheck.go:145-149 | The failing input: a delisted product and a failed request are reported as an error |
| FlareSolverr.UnwrapRendered | internal/source/flaresolverr.go:115-131 | Unwrapping an escaped payload between tags gives back the payload, trimmed; or the trimmed page exactly when what precedes the tag looks like JSON |
| FlareSolverr.ExtractExact | internal/source/flaresolverr.go:115-131 | Every page: JSON, and a page without a complete element, come back trimmed; otherwise the text of the first element does, trimmed and then unescaped |
| FlareSolverr.EntitiesRead | internal/source/flaresolverr.go:126 | Which character each of the five entities stands for |
| FlareSolverr.RawJsonPasses | internal/source/flaresolverr.go:116-119 | Raw JSON comes back merely trimmed, tags inside or not |
| Shopify.MinAvailablePrice | internal/source/shopifycollection.go:119-132 | The least readable price of available variants, none exactly when there is none, and whether any variant is available |
| Shopify.LeastIsCheapest | internal/source/shopifycollection.go:119-132 | Least means: some available variant asks this price and none asks less; none at all exactly when no available variant has a readable price |
| Shopify.CheckOne | internal/source/shopifycollection.go:61-100 | Against any server: stops at the first page that is not full or at the twentieth; a failing page discards everything; else the result is the filter of all products seen |
| Shopify.PaginationIsFlat | internal/source/shopifycollection.go:61-100 | Against a server that slices N products, the result is the flat filter of the first min(N, 5000) after min(20, N/250 + 1) requests |
| Shopify.CheckSliced | internal/source/shopifycollection.go:61-100 | The loop itself, on such a server, never fails and returns that filter |
| Shopify.FilteredTells | internal/source/shopifycollection.go:79-95 | Being the filter means one offer for each available product, in order, and no other; each tells its title, page, key and the least price that an available variant asks |
| Shopify.FilteredIsUnique | internal/source/shopifycollection.go:79-95 | This leaves no choice of result |
| Shopify.ItemKeysInjective | internal/source/shopifycollection.go:93 | Different products of a collection never share a key |
| BauhausSession.Source.GetSession | internal/source/bauhausstore.go:181-193 | Serves the cache only when unforced, filled and younger than the TTL; otherwise harvests once; a failed harvest changes nothing |
| BauhausSession.Source.Check | internal/source/bauhausstore.go:72-92 | One offer for each purchasable store result in the reply that counts, the first if its session and request succeed and otherwise the retry's, by product, store and result; an error exactly when there is none and both queries failed for some pair |
| BauhausSession.CheckAnswers | internal/source/bauhausstore.go:72-119 | The same as a law, from any cached session; each offer tells its stock, at least one piece, and its key |
| BauhausSession.BuildExact | internal/source/bauhausstore.go:94-119 | An offer comes from a purchasable store result of the reply, and from nothing else |
| BauhausSession.CacheIsLatestHarvest | internal/source/bauhausstore.go:179-193 | After any sequence of calls the cache is the latest successful harvest, cookie and user agent together |
| BauhausSession.ReturnedIsOneHarvest | internal/source/bauhausstore.go:179-193 | What a call returns comes from one harvest, the latest successful one, made in this call or unforced and younger than the TTL |
| BauhausSession.AtMostTwoEach | internal/source/bauhausstore.go:75-86 | A check harvests at most twice per product and store, whatever happens |
| BauhausSession.OneHarvestPlusRetries | internal/source/bauhausstore.go:72-92 | When harvests bring a cookie and no first query finds a session of this check expired, a check of any length harvests at most once more than first queries fail |
| Keys.SourcesNeverCollide | internal/source/webcheck.go:217 | Keys of differently named, colon-free sources are never equal |
| Keys.KeysNameTheirSource | internal/source/obi.go:104 | Every key form carries its source's name up to the first colon |
| Keys.ObiKeysInjective | internal/source/obi.go:104-122 | With colon-free product ids an OBI key determines product, channel and id, whatever the id contains |
| Keys.ObiKeysCollide | internal/source/obi.go:104-122 | Two product ids and channels can share a key if and only if one, written up to the id, begins the other |
| Keys.BauhausKeysCollide | internal/source/bauhausstore.go:115 | Two store ids can share a key if and only if one, up to its colon, begins the other |
| Keys.BauhausKeysInjective | internal/source/bauhausstore.go:115 | With colon-free store ids a Bauhaus key determines store and product |
| Obi.CheckOne | internal/source/obi.go:84-125 | One offer for every store, then one for every seller, each in the order of the reply |
| Obi.OfferTells | internal/source/obi.go:85-123 | What a store's and a seller's offer tell, field by field, and from which names they are read |
| Obi.PickStrFirst | internal/source/obi.go:133-143 | The first name that has a non-empty string decides; empty exactly when none has |
| Obi.PickIntFirst | internal/source/obi.go:145-162 | The first name that has a number, cut towards zero, or a string that spells an integer decides; zero when none has |
| Obi.ParseIntReads | internal/source/obi.go:155 | Digits with an optional sign spell an integer, and nothing else does |
| Obi.ProductLaidOut | internal/source/obi.go:38-47 | The offers of the replies one behind the other, by postal code; a failed request adds none |
| Obi.Check | internal/source/obi.go:35-52 | All replies' offers; an error exactly when there is none and some request failed |
| Obi.AllLaidOut | internal/source/obi.go:35-52 | One product's offers behind the other's |
| Obi.AllIsFromObi | internal/source/obi.go:35-126 | Every returned offer is unpriced, has stock, and carries a key of a configured product |
| Obi.UnpricedKeyOncePerTick | internal/monitor/monitor.go:135-169 | However often a tick repeats an unpriced key, it is notified at most once, and not at all when it has a row, unless a write fails |
| Obi.ObiNotifiesOnce | internal/source/obi.go:38-46 | One notification at most per product, channel and id in a tick, however many postal codes are polled and whatever other sources the product has |

## Left out

- HTTP, TLS impersonation, the SQL driver, YAML and environment loading, logging, signals and deployment files: their outcomes are parameters of the model.
- Real time and ticker coalescing: a run is a sequence of ticks per product; `notified_at` and `last_checked_at` are not columns of the model.
- Cancellation of a tick through its context: a crash may fall between any two steps, but a cancelled poll is just a failed one.
- A crash between the database's write and its acknowledgement: a store operation is one atomic step, and one that fails has no effect.
- The per-shop constructors: they fill in marker lists, which the marker lemmas cover for every list; their price readers are a parameter of the scraper.
- The regular-expression engine, JSON decoding and URL parsing: decoded values are inputs.
- Pushover message text and the retry clamp: single-branch facts.
- The rest of the wiring in cmd/product-monitor/main.go: which sources a product gets, and their addresses.
- The cookie header that internal/source/flaresolverr.go builds from a harvest: a harvest is a pair of strings.
- FlareSolverr.UnwrapRendered: only the five basic entities are escaped and unescaped, because the full entity table is data.
- Amount.AmountRoundTrip: prices are exact; signs, exponents, hexadecimal and special values of the standard float parser, and its rounding, are not modelled.
- WebCheck.CaseIsIrrelevant: lower-casing is ASCII only, because full Unicode case mapping is data; text is a sequence of characters, not bytes.
- Obi.PickIntFirst: integers are unbounded, so a count beyond 64 bits is read rather than skipped.
- Exposition.Write: values are exact and not printed as text; names are compared by character.
- Potential.DropsAreBounded: needs prices on a grid, since without a least step the number of drops has no bound in terms of prices.
- Metrics of a source shared by two products: the events of both are counted together, as in the code, in the order they happen.
