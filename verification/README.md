# archive-relay: a model of the write and read pipeline

archive-relay is a Nostr relay that stores the social-core kinds in ClickHouse, one
table per retention tier, with SQLite for its control state. This project models the
parts of it in which something can go wrong between an accepted event and a served
one, and proves what they promise:

- the tier batcher: a worker with a retry state, snapshot-bounded flushes and one
  final flush, with producers and flush callers running at every point where they can;
- replaceable events: probe, store, flush, retire, in any interleaving of any number
  of calls, crawler saves, failed inserts, lagging tombstones, deletes and crashes;
- query answering: filters compiled to conjuncts and arguments, per-tier queries merged,
  and the recent-feed mirror, all against one specification of the answer;
- the tombstone writer: a bounded buffer shifted in place, and a dictionary probed to
  see whether a reload took;
- the dedup cache, and the promise that nothing counts as seen before it is stored;
- the rate limiter, the priority crawl and the future-event scheduler.

## How it is put together

`Events` has events and the two row orders. `QuerySpec` says, on sets of rows, what a
REQ should return: the winner of every group, best first, at most `limit`; the answer is
unique. `FilterSql`, `Sql`, `Query` and `Feed` are the code that has to return it. Its key
lemma, `QuerySpec.TopOfPartialFetch`, says exactly when sorting and trimming a partial
fetch gives the right answer; the tier merge and the feed path are two instances of it.

`Batcher.TierBatcher` is the worker. Each case of its select is a method, every point at
which another goroutine could come in is filled with arbitrary client operations, and
`Run` drives any schedule. From outside it is a `DeliveryLog.Log`: what was accepted, and
how much of it is delivered. `Replace`, `SeenSafety` and `Scheduler` build on that view.
The one thing `Replace` takes from a successful `FlushAll`, that everything accepted
before it is delivered, is what `Batcher.TierBatcher.FlushAll` ensures.

`Replace` and `SeenSafety` are state machines over actions of all participants; their
main lemmas quantify over every sequence of actions. `Replace.SlotRequest` joins the two
halves: in every reachable state of the write side, the read side's REQ for a slot
returns exactly the newest acknowledged version. `Tombstone.Writer`,
`Dedup.SeenCache`, `Limiter.IpLimiter`, `PriorityCrawl.Crawler` and
`Scheduler.EventScheduler` are classes with the fields of the original.

Calls to ClickHouse and SQLite, clocks, relays and signature checks are parameters, free
to succeed or fail each time. Assumptions, stated as preconditions where they are used:
a batch size and a cache size of at least one; an id names one event (`IdsDetermine`,
`eventOf` in the scheduler); created_at and kind of a stored event fit in uint32
(`Storable`); the classifier override is constant and names real tiers; time does not
go backwards.

## Findings

Ten claims one would like to make do not hold of the code in general. Each comes with a
failing input or run and with the condition under which it holds.

- A `since` of -1, which matches everything under NIP-01, selects almost nothing, because
  it is cast to uint32 (`FilterSql.NegativeSinceHidesRows`, exact condition in
  `FilterSql.SinceCastExact` and `FilterSql.UntilCastExact`).
- Requested kinds are cast to int32: kinds 6 and 4294967303 return reactions, kind 7, that
  nobody asked for (`Query.MiscastKindIsRead`, exact condition in
  `FilterSql.KindCastExact`). The feed path is safe from this unless the override itself
  names kinds outside int32 (`Feed.EligibleKindsAreSmall`).
- A `d` constraint uses only its first value, and one on a tag that is not indexed wants
  all of its values at once, where NIP-01 wants any (failing rows and exact condition in
  `FilterSql.TagCompilesIff`).
- The feed path misses a row that belongs in the answer when it has the lowest id of its
  second and limit + 50 plain rows are newer or tied with it (`Feed.TiesBuryTheWinner`;
  exact condition for a right answer, on the two snapshots, in `Feed.CollectFeed`; the
  margin of 50 is shown sufficient in `Feed.MarginSuffices`).
- A flush can be kept open, and refused, by later ones. After two successful inserts have
  delivered both of its events it is still unanswered, because another request has
  extended the snapshot (`Batcher.FlushKeptOpen`); when the next insert fails it gets the
  error (`Batcher.FlushRefused`). Its events are always delivered on schedule, and it is
  answered then exactly when no request taken meanwhile added an insert
  (`Batcher.TierBatcher.FlushCompletes`).
- The dictionary probe accepts a stale dictionary when the probed id had been tombstoned
  before: `Tombstone.StaleRun` drives the writer to a state that it takes for clean while
  a tombstoned id is not hidden. The exact condition, before a reload, is in
  `Tombstone.Writer.CleaningReloadIff`; in a run of requests for distinct new ids a clean
  dictionary is always complete (`Tombstone.Writer.Run`).
- An override that drops a default kind makes ingest leave a mark for an event that is
  never stored (`SeenSafety.DroppedKindLeaksMark`, exact condition in
  `SeenSafety.SeenIsBackedIff`).
- A deferred event is handed to the store before its created_at when a client sends it
  again inside the buffer (`Scheduler.Resubmission`) or a crawler fetches it
  (`Scheduler.CrawledEarly`), and exactly then
  (`Scheduler.EventScheduler.HandedEarlyIff`).
- An accepted deferred event can be lost: when the process dies after its row is deleted
  and before its batcher has delivered it (`Scheduler.CrashAfterPublish`), or when it is
  parked over an unparsable row of its id while that row is being published
  (`Scheduler.ParkedOverCorrupt`). Each step says exactly what it loses
  (`Scheduler.EventScheduler.Crashes`, `Scheduler.EventScheduler.PublishOne`), and no run
  loses anything without a crash when all rows parse (`Scheduler.EventScheduler.Run`).
- The limiter reads the clock before it takes its lock, so requests can be counted out of
  order. One that comes in behind a sweep is admitted though its window was full
  (`Limiter.SweepForgetsTooEarly`), and an IP whose own requests come in out of order can
  get twice the limit through in less than a minute (`Limiter.LateRequestsSlipThrough`).
  The bound holds when no counted request carries a time before the last sweep and the
  IP's own requests are in order (`Limiter.FewerThanTwice`), as they are when all take the
  lock in clock order (`Limiter.ClockOrderSuffices`).

Two results are sharper than the source's own comments: under that condition the limiter
admits strictly fewer than twice its limit in any interval shorter than a minute, for every
IP but the empty one, which is never limited; and the priority crawl stays gap-free while
every mark lands within the overlap plus one second of subscribing, while any later mark
opens a gap at the next incremental fetch (`PriorityCrawl.LateRun`).

## Model

| member | source | states |
|---|---|---|
| Batcher.TierBatcher.Enqueue | internal/store/batcher.go:81-95 | An event is accepted exactly when the batcher is open and the channel has room; accepted events keep their order. |
| Batcher.TierBatcher.RequestFlush | internal/store/batcher.go:256-265 | A fresh reply channel reaches the worker exactly when the request channel has room, with everything accepted so far as its ticket. |
| Batcher.TierBatcher.AwaitFlush | internal/store/batcher.go:266-273 | A select that finds a success answer returns nil and one that finds an error answer returns it; nil means that every event accepted before the request is delivered. |
| Batcher.TierBatcher.FlushAll | internal/store/batcher.go:250-274 | Whatever the worker and all other clients do before, during and after: a nil result means that everything accepted before the call is delivered; a select that finds success for its request returns nil, and one that finds the error returns it. |
| Batcher.TierBatcher.FlushCompletes | internal/store/batcher.go:109-111 | While inserts succeed, by the timer or by further flush requests and whatever producers add: after the number of inserts fixed when a snapshot was taken, every ticket of its flushes is delivered; they have then been answered with success exactly when no request taken meanwhile added an insert, and are otherwise all still waiting. |
| Batcher.TierBatcher.FlushServed | internal/store/batcher.go:234-243 | The same from the moment the worker takes a flush request: one insert for each chunk of what was accepted by then. |
| Batcher.TierBatcher.QuietFlush | internal/store/batcher.go:250-274 | Both ends together: a flush that no other is in the way of, and whose inserts succeed, returns nil with everything accepted before it delivered. |
| Batcher.ChunksRoundUp | internal/store/batcher.go:148 | That number is the size divided by maxSize, rounded up. |
| Batcher.FlushKeptOpen | internal/store/batcher.go:234-241 | A run in which a flush whose events are all delivered has no answer, because a later request extended the snapshot. |
| Batcher.FlushRefused | internal/store/batcher.go:172-180 | Continued with a failing insert: the flush gets the error although its events are delivered. |
| Batcher.TierBatcher.ReplyAll | internal/store/batcher.go:129-134 | Every held reply channel is still empty and receives exactly one answer; success is only ever sent when nothing is owed. |
| Batcher.TierBatcher.Stage | internal/store/batcher.go:137-146 | Takes the buffer and n queued events without ever blocking, while producers keep adding; nothing is lost or reordered. |
| Batcher.TierBatcher.SendOne | internal/store/batcher.go:147-166 | The insert carried the oldest maxSize pending events; success moves exactly that chunk from pending to delivered and announces it, failure moves nothing. |
| Batcher.TierBatcher.Land | internal/store/batcher.go:153-164 | The delivered chunk is the oldest maxSize pending events, the callback log grows by it, and conservation and the tickets survive. |
| Batcher.TierBatcher.Reject | internal/store/batcher.go:150-152 | A failed insert attempted that same chunk and keeps it pending. |
| Batcher.TierBatcher.BackOff | internal/store/batcher.go:172-180 | Every waiting flush gets the error, the snapshot promise is dropped, the timer is armed for 1, 2, 4, 8, 16 and then 30 seconds. |
| Batcher.BackoffDoubles | internal/store/batcher.go:176-178 | One second first, then twice the last delay, at most 30. |
| Batcher.TierBatcher.Continue | internal/store/batcher.go:183-195 | With the snapshot unfinished the worker stays armed and owes the same; otherwise every waiting flush succeeds. |
| Batcher.TierBatcher.Attempt | internal/store/batcher.go:167-196 | On success what is owed shrinks by one chunk whatever producers add, the queued part of a snapshot following once the batch is out, and the back-off is reset; on failure nothing moves; the worker never goes to sleep with work pending. |
| Batcher.TierBatcher.WakeInput | internal/store/batcher.go:225-230 | Buffers one event, or sends the full backlog's first chunk when the buffer fills. |
| Batcher.TierBatcher.WakeTick | internal/store/batcher.go:231-233 | The whole backlog becomes the batch and its first chunk goes out. |
| Batcher.TierBatcher.WakeFlush | internal/store/batcher.go:234-241 | Everything accepted so far is owed to the request, behind a pending batch if there is one, and a chunk goes out at once. |
| Batcher.TierBatcher.WakeTimer | internal/store/batcher.go:242-243 | A retry sends the next chunk of the pending snapshot. |
| Batcher.TierBatcher.WakeStop | internal/store/batcher.go:205-224 | The final flush ends with everything delivered, which it does when all inserts succeed, or with a logged loss of exactly accepted minus delivered; held flushes are answered accordingly. |
| Batcher.TierBatcher.Step | internal/store/batcher.go:197-245 | A case that is ready is taken with its full effect; one that is not changes nothing. |
| Batcher.TierBatcher.FinalFlush | internal/store/batcher.go:210-222 | Terminates, and stops either with nothing left anywhere or with a batch pending. |
| Batcher.TierBatcher.Run | internal/store/batcher.go:97-246 | Over every schedule: conservation in order, queued at most the channel's length, retry exactly when pending is non-empty with the timer armed, bounded memory, replies answered once, log only extended. |
| Batcher.ConservedIsConcatenation | internal/store/batcher.go:105-111 | The conservation invariant is exactly: accepted is delivered, then pending, then buffered, then queued. |
| Batcher.AtLeastOnce | internal/store/batcher.go:147-166 | The table holds every announced row at least once, and exactly once in order unless an insert fails after storing. |
| Batcher.LateFailureDoublesRows | internal/store/batcher.go:147-166 | An insert that fails after storing leaves its rows twice once its retry succeeds. |
| DeliveryLog.LogSteps | internal/store/batcher.go:25-29 | Seen from outside: accepting stores nothing yet, delivering stores the next events, a crash loses exactly what is not stored. |
| FilterSql.BuildFilter | internal/store/filter_sql.go:34-107 | For every filter and every map iteration order, the conjuncts and their arguments stay aligned and select exactly the rows of `Selects`; the limit is the filter's if that is from 1 to 1000, and 1000 otherwise. |
| FilterSql.EvalAppend | internal/store/filter_sql.go:34-92 | Left-to-right binding of placeholders is compositional. |
| FilterSql.PrependKinds | internal/store/store.go:639-642 | Prepending the feed's kind conjunct and argument keeps the alignment and adds the kind test. |
| FilterSql.SelectsIsNip01 | internal/store/filter_sql.go:37-93 | For fitting tags, kinds and times, the selected rows are those NIP-01 matches that are not tombstoned. |
| FilterSql.ColumnIsNipTag | internal/store/schema.go:21-23 | Overlap with the accelerator column is the same as having a tag of that name with a wanted value. |
| FilterSql.TagCompilesIff | internal/store/filter_sql.go:53-82 | A tag constraint means what NIP-01 says on all rows exactly when the tag is indexed or asks for one value, not the empty one for d. |
| FilterSql.SinceCastExact | internal/store/filter_sql.go:83-86 | The uint32 cast of since is harmless for all storable timestamps exactly when `SinceFits`. |
| FilterSql.UntilCastExact | internal/store/filter_sql.go:87-90 | The uint32 cast of until is harmless for all storable timestamps exactly when `UntilFits`. |
| FilterSql.KindCastExact | internal/store/filter_sql.go:45-52 | The int32 cast of the kinds is harmless for all storable kinds exactly when `KindsFit`. |
| FilterSql.NegativeSinceHidesRows | internal/store/filter_sql.go:83-86 | A since of -1 hides a row that NIP-01 matches. |
| QuerySpec.TopIsUnique | internal/store/store.go:411-422 | The specification determines the answer. |
| QuerySpec.TopOfPartialFetch | internal/store/store.go:512-517 | Sorting and trimming a partial fetch gives the true top exactly when every row left behind has limit fetched rows ahead of it. |
| QuerySpec.WinnersOfUnion | internal/store/filter_sql.go:15-22 | Sets of rows that share no group are collapsed independently. |
| Sql.OrderByInOrder | internal/store/store.go:731-740 | Sorting puts the rows in the requested order. |
| Sql.LimitOneByIsWinners | internal/store/filter_sql.go:15-22 | LIMIT 1 BY over rows in serving order, duplicates included, keeps exactly the winner of each group, strictly sorted. |
| Query.TierQueryIsAnswer | internal/store/store.go:489-491 | One tier's query returns the specified answer over that tier. |
| Query.TierRowsAreNip01 | internal/store/filter_sql.go:34-107 | For such filters, what a tier query ranges over are the live rows NIP-01 matches. |
| Query.MergeTier | internal/store/store.go:484-511 | Appending another tier's answer keeps only winners, each once, and misses nothing that could make the cut. |
| Query.TiersForFilter | internal/store/store.go:711-729 | Exactly the tiers that can hold a requested kind, each once, never drop; all of them for a filter without kinds. |
| Query.SkippedTiersHoldNoMatch | internal/store/store.go:708-710 | When the kinds survive their cast, tiers that routing skips hold no row the filter selects. |
| Query.MiscastKindIsRead | internal/store/filter_sql.go:45-52 | Kinds 6 and 4294967303 are routed to the social tier and select a kind-7 row that NIP-01 does not match. |
| Query.TiersShareNoGroup | internal/store/classifier.go:29-48 | A kind lives in one tier, so no group straddles two. |
| Classifier.InScopeIsStored | internal/store/classifier.go:20-40 | The kinds in scope are exactly those stored, each in its tier. |
| Classifier.ReplaceableIsNip01 | internal/store/classifier.go:55-63 | On the kinds in scope, replaceable is what NIP-01 calls so. |
| Classifier.OverrideWins | internal/store/classifier.go:42-48 | A configured kind goes where the override says, any other by default. |
| Query.ScanTiers | internal/store/store.go:484-511 | Fails exactly when one of the tiers read fails; otherwise the collected rows cover the answer. |
| Query.CollectTiers | internal/store/store.go:481-517 | Fails exactly when a tier that holds a requested kind cannot be read; otherwise the result is the specified answer over those tiers, and over all tiers when the kinds survive their cast, even when tiers are read at different moments, with the filter's limit if that is from 1 to 1000 and 1000 otherwise. |
| Feed.SplitFeedKinds | internal/store/store.go:683-698 | Plain and replaceable kinds in order, dropped kinds in neither, the default scope for a filter without kinds. |
| Feed.DedupeById | internal/store/store.go:661-671 | Keeps every distinct event once. |
| Feed.FeedExactness | internal/store/store.go:617-678 | Sorting and trimming what the two steps fetched gives the answer exactly when the plain step buried no row that belongs in it. |
| Feed.BuriedAllTheSame | internal/store/store.go:619 | The condition is the same with all winners of the replaceable rows in place of the fetched ones, so it can be read off the snapshots. |
| Feed.MarginSuffices | internal/store/store.go:619 | If ties at the cut and repeats above it use up at most 50 fetched rows, nothing is buried. |
| Feed.MergeFeed | internal/store/store.go:661-677 | Dedupe, sort and trim: always sorted, within the limit and made of matching live rows; the answer exactly when no plain row beyond the first limit + 50 belongs in it. |
| Feed.CollectFeed | internal/store/store.go:617-678 | The whole feed path with both steps reading their own snapshot: fails exactly when a step with kinds to ask for cannot be read, and otherwise meets that condition, stated on the two snapshots; with at most 50 plain rows beyond the limit the answer is right. |
| Feed.FeedRangesOverTierRows | internal/store/feed.go:190-207 | For an eligible filter and a faithful mirror both paths range over the same rows. |
| Feed.EligibleIsMirrored | internal/store/feed.go:190-207 | An eligible filter has the shape of a global feed, and a feed that holds the last seven days mirrors the tiers for it. |
| Feed.DefaultWindowIsEligible | internal/store/feed.go:14-18 | The relay's default window is eligible up to 165 hours. |
| Feed.EligibleKindsAreSmall | internal/store/feed.go:190-207 | An eligible filter asks only for kinds that survive the cast, if the override names no others. |
| Feed.CollectEvents | internal/store/store.go:460-518 | Served by the feed exactly when it is on, eligible and answering; fails exactly when it is not and a routed tier fails; the tier answer is the specified one, and with a faithful mirror the feed answer is exactly when nothing is buried; never more events than the filter's limit, or 1000. |
| Feed.TiesBuryTheWinner | internal/store/store.go:627-631 | A row that belongs in the answer and has the lowest id of its second is missing whenever limit + 50 plain rows are newer or tied with it. |
| Replace.ProbeQueryIsProbe | internal/store/store.go:389 | The probe's SQL returns the 50 best live rows, best first. |
| Replace.ProbeDecidesExactly | internal/store/store.go:329-342 | Fifty rows decide as well as all: the event is stored exactly when it beats every live version. |
| Replace.Decide | internal/store/store.go:329-342 | The loop stores when all probed versions are older and retires exactly the older ones. |
| Replace.StoredIffBeatsAll | internal/store/store.go:329-357 | In the machine: after the probe a call hands its event to the batcher exactly when it beats every live version, and will retire exactly what it beats of the probe. |
| Replace.FullRetirement | internal/store/store.go:364-370 | When a call that retires in full returns, every version its probe returned and its event beats has been handed to the tombstone writer, whatever happened in between. |
| Replace.RunsAlone | internal/store/store.go:306-372 | A call that runs alone for an event that beats all live versions stores and acknowledges it and retires exactly the probe's versions. |
| Replace.ReplacementTakesHold | internal/store/store.go:298-305 | In any reachable state, after such a call and once its tombstones are loaded, the event is the only live version of its slot. |
| Replace.SecondReplacesFirst | internal/store/store.go:298-305 | From the beginning: a second, better version ends as the only live one, the first acknowledged, stored and retired. |
| Replace.DeleteHides | internal/store/store.go:281-283 | A deleted version is hidden once its tombstone is loaded. |
| Replace.InsertsShow | internal/store/batcher.go:147-166 | A delivery makes the next events visible, and so does an insert that then reports failure. |
| Replace.SaveAndExpire | internal/store/store.go:264-274 | A crawler's save reaches its batcher; a TTL hides what it removes. |
| Replace.CrashLeavesStored | internal/store/batcher.go:25-29 | A crash ends all calls and leaves what is stored. |
| Replace.StepKeepsInv | internal/store/store.go:306-372 | Every step of every participant keeps: what a call will retire is beaten by its event, and it retires only once that event or a better one is stored. |
| Replace.RunKeepsInv | internal/store/store.go:306-372 | The invariant holds in every reachable state. |
| Replace.ReplacedIsOutdone | internal/store/store.go:344-370 | In every reachable state each version retired as replaced has a strictly better version of its pubkey and kind durably stored. |
| Replace.BestIsServed | internal/store/store.go:298-305 | The best version ever stored, unless its author deleted it or a TTL removed it, is what a query for the slot returns, alone. |
| Replace.NeverEmpty | internal/store/store.go:344-351 | A slot with a stored version always has an answer, unless its best version was deleted under NIP-09 or removed by a TTL. |
| Replace.VersionsPersist | internal/store/store.go:344-351 | Stored versions stay stored over every continuation of a run, crashes included, unless a TTL removes them. |
| Replace.NewestAcknowledgedIsServed | internal/store/store.go:306-372 | However calls are ordered or overlap, once the best submitted version is acknowledged it is the one served. |
| Replace.AcknowledgedOrBetter | internal/store/store.go:306-372 | While better versions are in flight: a slot whose best stored version is neither deleted nor expired answers with an acknowledged version or a better one. |
| Replace.SlotQueryReadsLive | internal/store/store.go:382-389 | A REQ for one author and kind ranges over exactly the live versions of the slot. |
| Replace.RunKeepsRouting | internal/store/classifier.go:42-53 | In every reachable state each row is in the tier its kind routes to and fits the columns. |
| Replace.SlotRequest | internal/store/store.go:460-518 | End to end: in every reachable state in which the best submitted version is acknowledged, the REQ for its author and kind returns exactly that version. |
| Tombstone.Writer.Append | internal/store/tombstone.go:116-122 | A request is retained, or counted as dropped when 3000 are held. |
| Tombstone.Writer.Shift | internal/store/tombstone.go:133-135 | The in-place copy, clear and reslice removes exactly the first n and zeroes the vacated tail. |
| Tombstone.Writer.InsertBatch | internal/store/tombstone.go:126-135 | The first n retained requests become rows in order, the dictionary becomes dirty, the probe is the last of them. |
| Tombstone.Writer.FailBatch | internal/store/tombstone.go:127-130 | A failed insert keeps its requests and possibly leaves their rows behind. |
| Tombstone.Writer.Flush | internal/store/tombstone.go:123-138 | Inserts exactly the batches before the first failure, one that failed after storing its rows included; drops are reported; the dictionary is dirty if and only if it was or something was inserted. |
| Tombstone.Writer.Reload | internal/store/tombstone.go:222-242 | Succeeds exactly when the statement and the query do and the probed id is in the dictionary, which then is the new snapshot. |
| Tombstone.Writer.MaybeReload | internal/store/tombstone.go:190-192 | A reload starts exactly when dirty and two seconds after the last one ended, and makes the dictionary clean exactly when it goes through and finds the probe. |
| Tombstone.Writer.Turn | internal/store/tombstone.go:140-192 | The exact effect of one turn on requests, rows, retry state, dictionary and dirty flag; conservation in order; a drop only while an insert failure is outstanding. |
| Tombstone.Writer.TurnOnTick | internal/store/tombstone.go:146-147 | From every state a tick whose inserts succeed inserts everything retained and ends the retrying; one whose first insert fails inserts nothing. |
| Tombstone.Writer.TurnOnRequest | internal/store/tombstone.go:141-145 | A request is kept up to 3000; it inserts nothing before 1000 are retained or while a failure is outstanding, and everything otherwise. |
| Tombstone.Writer.Run | internal/store/tombstone.go:139-193 | Over any number of turns, with ClickHouse reloading on its own in between, all invariants hold, reload spacing included, and every request is on record; if the requested ids are pairwise distinct and new, a dictionary that is clean after an insert hides every known id. |
| Tombstone.Writer.Burst | internal/store/tombstone.go:139-193 | While inserts succeed, fewer than 1000 requests and the next tick put exactly their rows behind the table, and a due reload that finds the probe makes the dictionary clean. |
| Tombstone.Writer.Stop | internal/store/tombstone.go:148-187 | Every request received is inserted, counted as lost at shutdown or reported as dropped, none lost when the last inserts succeed; a dirty dictionary is reloaded once. |
| Tombstone.Writer.CleanMeansVisible | internal/store/tombstone.go:17-23 | A dictionary that is not dirty hides every id known to be tombstoned, those of earlier processes included, when all of them had a row by the probe's first one. |
| Tombstone.Writer.FreshMeansVisible | internal/store/tombstone.go:131 | That condition follows from the order of the rows when all requested ids are distinct and new, failed inserts that left rows behind included. |
| Tombstone.Writer.CleaningReloadIff | internal/store/tombstone.go:190-192 | Before a reload: whatever snapshot comes back, a reload that cleans the writer leaves the dictionary complete exactly when each known id had a row by the probe's first one or is already loaded. |
| Tombstone.ProbeIsReliable | internal/store/tombstone.go:232-240 | The probe detects every stale snapshot exactly when each known id had a row by the probe's first one or is already loaded. |
| Tombstone.NewProbeIsReliable | internal/store/tombstone.go:131 | It does when the probed id is new. |
| Tombstone.StaleRun | internal/store/tombstone.go:232-240 | A run of the writer: after a, then b and a again, a reload that returns the old snapshot leaves it clean with b not hidden. |
| Tombstone.EveryRequestCounted | internal/store/tombstone.go:110-122 | Kept and dropped requests together are all requests. |
| Dedup.ParseEventIdInjective | internal/crawler/dedup.go:72-81 | Canonical ids that the cache identifies are the same id. |
| Dedup.ParseEventIdIff | internal/crawler/dedup.go:72-81 | An id is a hash exactly when it is 64 hex digits. |
| Dedup.SeenCache.Warm | internal/crawler/dedup.go:101-121 | Loads every valid id of at most memCap rows without rotating. |
| Dedup.SeenCache.InsertLocked | internal/crawler/dedup.go:186-193 | Inserts and rotates at memCap, keeping the generations tied to the history. |
| Dedup.SeenCache.Seen | internal/crawler/dedup.go:125-137 | True exactly for valid ids in one of the generations. |
| Dedup.SeenCache.CheckAndMark | internal/crawler/dedup.go:155-170 | True exactly when unseen, and then marked; an id that is no hash is unseen and leaves no trace. |
| Dedup.SeenCache.MarkMany | internal/crawler/dedup.go:174-184 | Marks the valid ids in order. |
| Dedup.SeenCache.Unmark | internal/crawler/dedup.go:196-205 | Removes the id from both generations. |
| Dedup.SeenCache.Bounded | internal/crawler/dedup.go:16-22 | At most twice memCap ids are held. |
| Dedup.SeenCache.Window | internal/crawler/dedup.go:186-193 | Each of the last memCap distinct ids inserted, unless unmarked since, is still seen. |
| SeenSafety.IngestStep | internal/crawler/ingest.go:42-77 | Enqueued exactly when it won the mark, is in scope, verifies and is saved; the mark goes on every rejection and stays on save errors other than a full batch. |
| SeenSafety.SeenRowsAreStored | internal/crawler/dedup.go:225-249 | In every reachable state, with crashes at any step, each durable seen_events id is the id of a stored event. |
| SeenSafety.SeenAfterRestartIsStored | internal/crawler/dedup.go:97-121 | After a restart and Warm, an id reported as seen is stored. |
| SeenSafety.AnnouncedIsSeenAfterRestart | internal/crawler/dedup.go:225-249 | What is delivered becomes seen for good: once announced and written, a restart that loads the id reports it as seen. |
| SeenSafety.IngestTakesEffect | internal/crawler/ingest.go:42-77 | An event that is new, in scope, verified and has room reaches its batcher and is seen, and nobody else takes it meanwhile. |
| SeenSafety.OtherSteps | internal/crawler/dedup.go:225-249 | What a batcher announces is seen at once; a client's event goes to its batcher; pruning only removes rows. |
| SeenSafety.SeenIsBacked | internal/crawler/ingest.go:42-77 | With an override that keeps the scope, a seen id is stored, in a batcher or being ingested, in every reachable state. |
| SeenSafety.DroppedKindLeaksMark | internal/crawler/ingest.go:65-74 | A run in which an override-dropped kind leaves a mark with nothing behind it. |
| SeenSafety.SeenIsBackedIff | internal/crawler/ingest.go:42-77 | The guarantee holds over all runs exactly when the override drops no default kind. |
| Limiter.IpLimiter.Allow | internal/policy/ratelimit.go:41-65 | Decides and updates as the fixed-window step with collection; disabled or without an IP it always allows and changes nothing. |
| Limiter.IpLimiter.Collect | internal/policy/ratelimit.go:57-61 | The sweep removes exactly the expired entries. |
| Limiter.CollectionChangesNothing | internal/policy/ratelimit.go:55-63 | On every trace, in lock order, in which no counted request carries a time before the last sweep, the limiter decides like one that never deletes an entry. |
| Limiter.FewerThanTwice | internal/policy/ratelimit.go:48-54 | On such a trace any interval shorter than 60 seconds admits fewer than twice PerMinute requests of one IP that is limited at all and whose own requests are in clock order. |
| Limiter.SweepForgetsTooEarly | internal/policy/ratelimit.go:45-63 | A request that carries a time before the last sweep is admitted though its window was full. |
| Limiter.LateRequestsSlipThrough | internal/policy/ratelimit.go:45-54 | A trace in which an IP whose requests are out of order gets twice the limit through in less than a minute. |
| Limiter.ClockOrderSuffices | internal/policy/ratelimit.go:45-46 | Requests that take the lock in clock order meet both conditions. |
| Limiter.ExemptIsUnlimited | internal/policy/ratelimit.go:42-44 | Requests without an IP, and all requests of a disabled limiter, are always admitted. |
| Limiter.NeverTooStrict | internal/policy/ratelimit.go:48-54 | Such an IP is admitted when it sent fewer requests than the limit in the last minute. |
| Limiter.OldEntriesGo | internal/policy/ratelimit.go:55-63 | Memory is bounded: no entry survives two minutes after its window opened. |
| PriorityCrawl.FetchLeavesNoGap | internal/crawler/priority.go:14-27 | A window that starts no later than right after an earlier one leaves no second uncovered. |
| PriorityCrawl.CompletedKeepsGapFree | internal/crawler/priority.go:175-179 | A completed job with a punctual mark keeps every pubkey gap-free and every mark inside the covered past. |
| PriorityCrawl.Crawler.DecideSince | internal/crawler/priority.go:140-158 | Full history exactly when a lookup fails, the pubkey was never fetched or its sweep is a day old; otherwise from two hours before the last fetch on; a since overlaps the covered past. |
| PriorityCrawl.SweptThenIncremental | internal/crawler/priority.go:140-158 | After a marked sweep the next decisions are incremental, from 7200 seconds before the fetch on, until the sweep is 86400 seconds old. |
| PriorityCrawl.Crawler.Complete | internal/control/control.go:319-349 | The fetch is recorded and the row updated as far as the updates succeed; with a mark inside the overlap every pubkey stays gap-free. |
| PriorityCrawl.Crawler.FetchRelay | internal/crawler/priority.go:160-185 | Of the jobs tried before the crawl is stopped, exactly those that reached EOSE are recorded and marked; the others are passed on in order. |
| PriorityCrawl.LeftIsUnserved | internal/crawler/priority.go:169-185 | A relay leaves exactly the jobs it did not bring to EOSE before the crawl was stopped. |
| PriorityCrawl.ServedIsMarked | internal/crawler/priority.go:169-185 | For each pubkey: its fetch is recorded and its row marked when the relay served it, and nothing changes otherwise. |
| PriorityCrawl.RelaysFailOver | internal/crawler/priority.go:117-122 | Each relay is asked for exactly what the one before it did not serve. |
| PriorityCrawl.GoodRelayServesAll | internal/crawler/priority.go:117-122 | One relay that serves everything is enough, wherever it is in the list. |
| PriorityCrawl.UnservedRemains | internal/crawler/priority.go:117-125 | A job that no relay serves is still there at the end. |
| PriorityCrawl.RelaysKeep | internal/crawler/priority.go:117-122 | Over all relays, failover included, punctual marks keep every pubkey gap-free. |
| PriorityCrawl.RelaysBalance | internal/crawler/priority.go:117-122 | Over all relays no job is lost or doubled, and the fetches recorded are those of the jobs done. |
| PriorityCrawl.Crawler.Tick | internal/crawler/priority.go:107-126 | Every pubkey gets its decision; each relay is asked for exactly what the one before it did not serve, until the relays are used up, the crawl is stopped or nothing is left; one good relay anywhere in the list leaves nothing, and a job that no relay serves remains; jobs and fetches balance; with punctual marks no pubkey has a gap. |
| PriorityCrawl.Crawler.Run | internal/crawler/priority.go:81-99 | Over any sequence of ticks nothing fetched is forgotten, and punctual marks never let a gap open. |
| PriorityCrawl.LateRun | internal/crawler/priority.go:15-18 | A run of the crawler in which any mark later than the overlap plus one second after subscribing opens a gap at the next, incremental, fetch. |
| Scheduler.EventScheduler.Save | internal/relay/relay.go:57-64 | What reaches the closure is parked when it is too far in the future and handed to its batcher otherwise; an error changes nothing. |
| Scheduler.EventScheduler.SaveEvent | internal/store/store.go:264-274 | An event of a stored kind is handed to its tier's batcher when that has room. |
| Scheduler.EventScheduler.PublishOne | internal/scheduler/scheduler.go:84-97 | A due event goes back through save, is never parked again, and its row is deleted only after its batcher took it or it did not parse; says exactly which event that loses. |
| Scheduler.EventScheduler.PublishDue | internal/scheduler/scheduler.go:78-98 | With arrivals before each row: no row disappears unless settled, every row whose batcher has room is, and with fewer than 100 due and room for all no deferred event stays behind its time. |
| Scheduler.EventScheduler.Receive | internal/relay/relay.go:57-64 | A client's event is accepted exactly when it is parked or handed on, a crawler's goes past the closure, a batcher delivers; what is accepted is no longer lost, and nothing else changes. |
| Scheduler.NothingOverdue | internal/control/control.go:367-386 | With fewer than 100 rows due and room for all, every deferred event of a stored kind whose time has come is handed to its batcher. |
| Scheduler.EventScheduler.Run | internal/scheduler/scheduler.go:60-98 | Over every sequence of ticks, client events, crawler saves, deliveries and crashes: what a row publishes is handed on in its time and what a client sends never while it would be deferred; without a crash, and when all rows parse, no accepted deferred event gets lost. |
| Scheduler.EventScheduler.Crashes | internal/scheduler/scheduler.go:91-95 | A crash loses exactly the deferred events whose row is gone and which no batcher has delivered. |
| Scheduler.DeliveredIsSafe | internal/store/batcher.go:147-166 | What its batcher has delivered survives a crash. |
| Scheduler.CrashAfterPublish | internal/scheduler/scheduler.go:91-95 | A run that loses an accepted event though every row parses. |
| Scheduler.CrawledEarly | internal/crawler/ingest.go:65 | A deferred event that a crawler fetches is handed on early. |
| Scheduler.EventScheduler.HandedEarlyIff | internal/scheduler/scheduler.go:35-38 | Over every run an event is handed to the store before its created_at exactly when a client sent it within the buffer or a crawler fetched it ahead of its time. |
| Scheduler.Resubmission | internal/relay/relay.go:59-64 | A deferred event that is sent again within the buffer is handed on early. |
| Scheduler.ParkedOverCorrupt | internal/scheduler/scheduler.go:86-90 | A run that loses an event accepted over an unparsable row. |

## Left out

- Feed.CollectEvents: takes the mirror's content as given; the feed writer's queue, drops and retention are not modelled.
- SeenSafety.SeenIsBacked: shutdown is not an action; a process that stops is a crash.
- Scheduler.EventScheduler.Save: covers only what reaches the closure; the relay hands replaceable kinds to ReplaceEvent directly, so a future-dated profile is not deferred.
- The substring scan over the raw tag text is a parameter; it is compared with NIP-01 only for rows on which it finds exactly the tags.
- Events whose created_at or kind does not fit in uint32: their columns would be truncated on insert.
- Row content beyond the event's fields, signatures, id hashing, JSON and SQL text: conjuncts are tokens.
- The 50 ms shutdown sweep of the tombstone writer and every other wall-clock detail.
- CountEvents, read admission, allow lists, reply targets, statistics, the REST API and the pruning of seen_events beyond its effect on the rows: easy or thin.
- The firehose crawler's reconnect window and the schema with its migrations.
