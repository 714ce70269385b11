# Click recommender: verified model

This project models the click write path, the item cache and the ranking arithmetic of the click
recommender in Dafny, and proves what each of them keeps over whole runs.

- **Click write path.** One partition of `user.clicks` with any number of workers, faults at every await,
  crashes, rebalances, marker expiry and lost acknowledgements: a state machine (`Consumer`), the steps each
  record makes a worker take (`ConsumerTrace`), the worker's code proved to take exactly these (`ConsumerLoop`),
  the exact condition for exactly-once (`ExactlyOnce`), the fetch position the loop really has
  (`FetchPosition`), the dead-letter queue with its replay script (`Dlq`), and the two joined (`Conservation`).
- **Item cache.** Any number of concurrent `get_item_cached` callers over one cache key and one lock key, with
  lock and cache expiry and errors in every Redis call: a state machine (`CacheAside`) and the caller's code
  proved to be a run of it (`CacheAsideClient`).
- **Ingestion.** Claim, publish and release of one event id under concurrency (`Ingest`), and the batch route's
  fan-out by user (`Batch`).
- **State that must agree with a simple specification.** Sorted sets (`ZSets`, `Order`), recent clicks against
  the full history (`RecentClicks`), the co-click table against counting windows (`CoClicks`), both together over
  all users (`Enrichment`), the decayed popularity sets (`Popularity`), their refresher command by command
  (`PopularityRace`) and the item metadata caches (`ItemMeta`).
- **Ranking.** NDCG and MRR (`Ndcg`), the scorer (`Scorer`), the query path from merge to top selection
  (`Ranking`, with `StableSort`), and the LLM re-ordering (`Reranker`).

How the concurrent parts are written: a `Step` type names every atomic action and every fault, `Enabled` and
`Do` say when it may happen and what it changes, and a run is any sequence of enabled steps. In the classes that
follow the code statement by statement, each await is a call of `Yield`, whose contract allows any number of
steps of everybody else; callers are verified against that contract, so the empty body of `Yield` is never
relied on. Which calls fail, and whether a failed call took effect all the same, is an arbitrary input (`Faults`,
`Fates`), so that contracts can say what follows from a fault and what must happen without one.

Scores and times are reals, `exp(-interval / half_life)` is any factor strictly between 0 and 1, `1 / log2(i + 2)`
is any positive strictly decreasing discount, and item serialisation is any encoding that the row in question
survives without looking like the null sentinel. `Ndcg.DiscountExists`, `CacheAside.FaithfulCodecExists` and
`Conservation.ValidatingParserExists` show that these hypotheses can be met.

## What the proofs found

Where the code and its own documentation differ, the model follows the code.

- `DLQ_FAILED` is documented as "re-fetched on the next poll" (`src/click_rec/kafka/consumer.py:99-104`, `344-345`),
  but nothing moves the fetch position back. The promise is kept exactly by the runs in which no later commit of the
  same session lands (`FetchPosition.HoldsBackIff`), and records are lost exactly when such a commit overtakes a gap
  with a record no earlier batch had handled (`FetchPosition.NothingLostIff`). `FetchPosition.LosingRun` loses one,
  whatever follows. The theorems of `Consumer` therefore rest on the assumption that a poll starts at the committed
  offset.
- "Exactly one executes the SELECT" (`src/click_rec/cache/cache_aside.py:141-142`) fails even without any fault,
  because the cache is not read again after winning the lock: `CacheAside.TwoSelects`. The exact condition is
  `CacheAside.ExactlyOneSelectIff`.
- Side effects run more than once without any fault when two workers hold the same record across a rebalance:
  `Consumer.OverlapCommitsTwice`. Without faults they run exactly once if and only if no two deliveries of the
  event overlap: `ExactlyOnce.ExactlyOnceIff`.
- A publish that fails with anything but a connection or timeout error leaves the dedupe claim behind, and the
  retry is answered "duplicate" although nothing was published: `Ingest.StrandedClaimLosesEvent`. "Duplicate" is
  truthful throughout a run if and only if no step strands the claim like this: `Ingest.TruthfulIffNeverStranded`.
  `release_event_id` deletes the key without checking whose claim it is; the bound on acknowledged publishes
  holds all the same.
- An out-of-order click can make the trimmed `recent_clicks` set differ from the full history:
  `RecentClicks.LateClickDiverges`. Over a run the two agree at every point if and only if no click demotes a kept
  item below a trimmed one: `RecentClicks.AgreesIffNeverDemotes`.
- While a refresh is under way, clicks can lift a popularity score above its bound: `PopularityRace.OvershootInsideRefresh`.
  That happens if and only if the refresh has read the item's score and not yet replaced or removed it, and the
  score read, with the clicks since then, exceeds the bound: `PopularityRace.RacedScoreBounded`.
- `get_last_session_items` with `n = 0` asks for the range `0 .. -1`, which is everything:
  `RecentClicks.LastItemsBounded`.
- With `item_cache_max_size = 0` each metadata cache holds one entry after its first miss, so the bound is
  `max(cap, 1)`: `ItemMeta.ItemMetaCache.ValidCaches`.
- The comment at `src/click_rec/ranker/features.py:294-296` says a row whose two ends are both candidate and recent cannot
  exist. It can, and the code counts it correctly, once for each end: `CoClicks.BothEndsCount`.
- Leading empty columns make `score` restart its length check, so that longer columns behind them surface as an
  `IndexError` instead of the documented `ValueError`: `Scorer.EmptyBm25Slips`. The contract of `Scorer.Score` says
  exactly when each error is raised.
- With LLM re-ranking a search page can come back shorter than asked: the re-ranked list has at most
  `re_rank_input_k` items and replaces the hybrid list. `Reranker.SearchResponse` says exactly when.
- A click that is valid JSON but fails validation is sent to the DLQ, re-published by the replay script whenever it
  has a `user_id`, and fails again: `Conservation.PoisonFailsAgain`.
- A DLQ row that is valid JSON but not an object stops the replay script with an `AttributeError`; the consumer
  never writes such a row.

## Model

| member | source | states |
|---|---|---|
| `Consumer.NothingLost` | src/click_rec/kafka/consumer.py:325-360 | in every reachable state, every record below the committed offset is on the DLQ or its event was fully enriched or skipped as unknown; poison pills are on the DLQ (polls start at the committed offset) |
| `Consumer.StepKeepsInv` | src/click_rec/kafka/consumer.py:173-277 | every single step, fault, crash or commit keeps the protocol invariant behind no-loss, markers and per-delivery effect order |
| `Consumer.EffectChainAndDriftBound` | src/click_rec/kafka/enrichment.py:258-293 | per event: DB commits >= recent-click writes >= counter >= category set >= global set >= profile publishes, and DB commits <= max_retries x unmarked deliveries |
| `Consumer.MarkerMeansEnriched` | src/click_rec/kafka/consumer.py:203-234 | a set marker means every effect of the event ran at least once, or its item was found unknown |
| `Consumer.ExactlyOnceWhenSmooth` | src/click_rec/kafka/enrichment.py:24-37 | if nothing fails after an event's first commit, its marker works and no two deliveries of it overlap, every effect happens at most once, and exactly once when the marker is set and the item known |
| `Consumer.OverlapCommitsTwice` | src/click_rec/kafka/consumer.py:297-308 | a fault-free run with two workers on the partition that commits one event twice |
| `ExactlyOnce.ExactlyOnceIff` | src/click_rec/kafka/consumer.py:297-308 | in a run in which nothing fails for a known event and which finishes it, each of its side effects happens exactly once if and only if no two of its deliveries overlap |
| `ExactlyOnce.EffectsCountDeliveries` | src/click_rec/kafka/enrichment.py:258-293 | in such a run each effect happens once per delivery that passed the marker check |
| `ExactlyOnce.OverlapMakesTwo` | src/click_rec/kafka/consumer.py:297-308 | an overlap leaves at least two such deliveries, with or without faults |
| `ConsumerLoop.Partition.PollCycle` | src/click_rec/kafka/consumer.py:325-360 | one poll cycle of the code, under arbitrary interference and faults: each record from the committed offset on, up to the handled prefix and the record that broke the batch off, makes the worker take exactly the steps called for, between the poll and the commit; the prefix is accounted for, ends early only at a failed DLQ publish, and a commit that lands is directly behind it |
| `ConsumerLoop.CycleSteps` | src/click_rec/kafka/consumer.py:325-360 | so a cycle is a run of the state machine in which the worker polls, does each record's steps in order, commits, and does nothing else |
| `ConsumerLoop.CycleBegins` | src/click_rec/kafka/consumer.py:325-360 | a cycle begins one delivery for each click of it whose marker is not found, and no other |
| `ConsumerLoop.Partition.HandleRecords` | src/click_rec/kafka/consumer.py:338-346 | handles records in order up to the first DLQ_FAILED and remembers the last one handled |
| `ConsumerLoop.Partition.ProcessOne` | src/click_rec/kafka/consumer.py:173-277 | a marker that is found ends the record at once with OK, changes nothing else and begins no delivery; otherwise one delivery begins, the worker takes exactly the steps its faults call for, OK is returned if and only if one of the attempts raises nothing (and then the marker is set if its write lands), and DLQ_OK or DLQ_FAILED as the DLQ publish ends; DLQ_OK means the record is on the DLQ, OK that its event is settled |
| `ConsumerTrace.RecordBegins` | src/click_rec/kafka/consumer.py:203-234 | the steps a record calls for begin a delivery if and only if it is a click whose marker is not found |
| `ConsumerTrace.FollowsBegins` | src/click_rec/kafka/consumer.py:203-234 | over any run, with any interference, a worker's deliveries grow by exactly the number of times it began one |
| `ConsumerTrace.ChainFollows` | src/click_rec/kafka/consumer.py:338-346 | records handled one after another make the worker take their steps in order, with nothing of its own in between |
| `ConsumerLoop.Partition.RetryLoop` | src/click_rec/kafka/consumer.py:220-262 | done if and only if one of the max_retries attempts raises nothing; then the event is settled, otherwise the record is on its way to the DLQ |
| `ConsumerLoop.Partition.OneAttempt` | src/click_rec/kafka/consumer.py:224-247 | an attempt in which no call raises settles the event and moves past the record, any other leaves the loop at the next attempt |
| `ConsumerLoop.Partition.ApplyEnrichment` | src/click_rec/kafka/enrichment.py:239-293 | runs all effects in order for a known item and none for an unknown one; raises if and only if one of its calls does, and then the next attempt starts over |
| `ConsumerLoop.Partition.SendToDlq` | src/click_rec/kafka/consumer.py:111-170 | success means the record's offset is on the DLQ and the worker moves on; failure leaves the batch broken off |
| `ConsumerLoop.Partition.CheckMarker` | src/click_rec/cache/redis_client.py:104-123 | the record is skipped if and only if the marker is set and the read does not err; otherwise a delivery starts |
| `ConsumerLoop.Partition.MarkProcessed` | src/click_rec/cache/redis_client.py:126-143 | completes the delivery, with the marker set if and only if the write lands |
| `ConsumerLoop.Partition.CommitOffsets` | src/click_rec/kafka/consumer.py:347-360 | commits directly behind the last handled record if there is one; a failed commit may or may not have landed |
| `FetchPosition.HoldsBackIff` | src/click_rec/kafka/consumer.py:333-348 | with the real fetch position, failed records stay at or above the committed offset if and only if no commit lands in a session after one of its batches broke off |
| `FetchPosition.NoLossUnlessOvertaken` | src/click_rec/kafka/consumer.py:333-348 | under that condition every record below the committed offset was handled |
| `FetchPosition.OvertakingLosesInOneSession` | src/click_rec/kafka/consumer.py:325-360 | within one session, nothing is lost if and only if that condition holds |
| `FetchPosition.NothingLostIff` | src/click_rec/kafka/consumer.py:325-360 | over any sessions, a record below the committed offset is left unhandled if and only if a commit lands in a session after one of its batches broke off before a record that no earlier batch had handled |
| `FetchPosition.LostForGood` | src/click_rec/kafka/consumer.py:325-360 | a lost record is never fetched again, whatever batches, restarts or rebalances follow |
| `FetchPosition.LosingRun` | src/click_rec/kafka/consumer.py:341-348 | a concrete run that loses the record whose DLQ publish failed, under every continuation |
| `FetchPosition.BuildCommits` | src/click_rec/kafka/consumer.py:336-348 | the commit dict has, for each partition, the offset behind its longest handled prefix, and no entry when the first record failed |
| `FetchPosition.LastCommittable` | src/click_rec/kafka/consumer.py:338-348 | the last offset before the first DLQ_FAILED outcome |
| `Dlq.EnvelopeRoundTrip` | src/click_rec/kafka/consumer.py:134-156 | a failed record comes back with the same payload, keyed on its user_id, if and only if the payload is an object with a non-empty string user_id; otherwise it is quarantined, and the consumer's rows never crash the replay |
| `Dlq.EnvelopeNamesRecord` | src/click_rec/kafka/consumer.py:134-156 | the envelope names the record's topic, partition, offset and key and the error, and its reason tells the two kinds of failure apart |
| `Dlq.HandleExact` | scripts/replay_dlq.py:117-163 | any row, whoever wrote it: republished if and only if it carries an object that names a user, fatal if and only if it is a JSON document but not an object, and quarantined otherwise, as when it does not parse |
| `Dlq.HandledRowsPartition` | scripts/replay_dlq.py:117-163 | re-published and quarantined rows partition the handled ones: replayed + skipped = handled, never both |
| `Dlq.Replayer.HandleDlqRecord` | scripts/replay_dlq.py:117-163 | one row is quarantined, or re-published and acknowledged, or the call raises; which of them follows from the row and the broker; a failed publish may have been stored |
| `Dlq.Replayer.HandleRows` | scripts/replay_dlq.py:93-101 | exactly the handled prefix of rows is put out, in order, and the two counters are theirs; it ends early exactly at the first row that cannot be handled |
| `Dlq.Replayer.ReplayPartition` | scripts/replay_dlq.py:93-103 | the commit follows the whole partition batch, so every row below a committed offset stays accounted for; fails if and only if one of these rows or their commit does |
| `Dlq.Replayer.ReplayDlq` | scripts/replay_dlq.py:51-114 | over any polls and failures: rows below committed offsets are re-published or quarantined and offsets never move back; a run aborts if and only if a row it gets to cannot be handled or a commit it gets to fails, and a completed one has handled and committed everything it was served and reports the counts of exactly those rows |
| `Dlq.ServedUntilIdle` | scripts/replay_dlq.py:85-114 | with no three empty batches in a row everything the broker hands out is served, and otherwise everything before the first three and nothing behind them |
| `Conservation.NoRecordIsLost` | scripts/replay_dlq.py:93-103 | consumer and replayer together: every record below the consumer's committed offset was enriched, skipped as unknown or is on the DLQ, and once the replayer has passed its row it was re-published with the same payload, keyed on its user, or quarantined |
| `Conservation.FailedClickComesBack` | src/click_rec/kafka/consumer.py:134-156 | a validated click of a named user comes back as the same click, keyed on that user, once the replayer has passed its row |
| `Conservation.PoisonFailsAgain` | scripts/replay_dlq.py:137-163 | a message that is no valid click is re-published as it was if it names a user, and does not parse then either; otherwise it is quarantined |
| `CacheAside.TransparentAndUnlocked` | src/click_rec/cache/cache_aside.py:136-253 | in every interleaving with any errors, expiries and timeouts a completed call returns exactly the DB answer; a filler that is gone does not own the lock unless its release errored; a plain hit runs no SELECT |
| `CacheAside.StepKeepsInv` | src/click_rec/cache/cache_aside.py:155-253 | every step of any caller, expiry or crash keeps the invariant: the cache holds the DB answer, each caller's SELECTs match its lock win or fallback |
| `CacheAside.DecodeEncode` | src/click_rec/cache/cache_aside.py:82-93 | what is cached for a row or its absence decodes to it if and only if the row survives serialisation and does not look like the sentinel |
| `CacheAside.TenureIsSafe` | src/click_rec/cache/cache_aside.py:58-69 | a lock tenure ends only by expiry or by its own holder's release |
| `CacheAside.OneFillerAtATime` | src/click_rec/cache/cache_aside.py:176-224 | without lock expiry at most one caller is between winning and releasing |
| `CacheAside.SelectsAccounted` | src/click_rec/cache/cache_aside.py:136-226 | in every finished run, SELECTs = lock wins + fail-open and timeout reads |
| `CacheAside.ExactlyOneSelectIff` | src/click_rec/cache/cache_aside.py:141-142 | in a finished cold-start run without errors, timeouts or expiries, exactly one SELECT runs if and only if no lock attempt comes after a release |
| `CacheAside.TwoSelects` | src/click_rec/cache/cache_aside.py:177-222 | a fault-free run of two callers with two SELECTs |
| `CacheAsideClient.ItemKey.GetItemCached` | src/click_rec/cache/cache_aside.py:136-226 | the code under arbitrary interference and faults is a run of the state machine in which this caller takes only the steps its faults call for; it returns the DB answer, and raises if and only if its SELECT does or, outside Redis, its write to the cache; it falls back only when Redis is missing, a Redis call fails or the whole wait runs out; a filler whose SELECT and store do not fail had the row in the cache right behind the store; it leaves the lock unless its release errored |
| `CacheAsideClient.ItemKey.constructor` | src/click_rec/cache/cache_aside.py:136-153 | a cold key in front of any row, with an encoding that row survives, satisfies the invariant |
| `CacheAsideClient.ItemKey.FastPath` | src/click_rec/cache/cache_aside.py:155-172 | without an error it answers if and only if it finds the key cached, and otherwise goes on to the lock; an error falls back to the database |
| `CacheAsideClient.ItemKey.TryLock` | src/click_rec/cache/cache_aside.py:176-188 | without an error it wins if and only if it finds the lock free; winning, losing and erring lead to filling, waiting and a direct read |
| `CacheAsideClient.ItemKey.WaitForFiller` | src/click_rec/cache/cache_aside.py:116-133 | polls until the key appears, an error or the deadline; falls back only after a failed poll or the full number of polls |
| `CacheAsideClient.ItemKey.Fill` | src/click_rec/cache/cache_aside.py:219-226 | reads, populates and releases in any case; raises if and only if the SELECT or, outside Redis, the write does; without a failure the cache holds the row right behind the store |
| `CacheAsideClient.ItemKey.PopulateCache` | src/click_rec/cache/cache_aside.py:229-253 | without an error the cache holds the row; Redis errors are swallowed whether or not the write landed |
| `CacheAsideClient.ItemKey.ReleaseLock` | src/click_rec/cache/cache_aside.py:256-271 | the lock it finds is deleted if it is the caller's and left alone otherwise; errors are swallowed |
| `Ingest.AcksBounded` | src/click_rec/api/routers/events.py:37-61 | acknowledged publishes, and "accepted" answers, of one event id <= 1 + dedupe errors + claim expiries, in any interleaving |
| `Ingest.CopiesBounded` | src/click_rec/api/routers/events.py:48-55 | copies on the topic exceed that bound only by publishes whose acknowledgement was lost |
| `Ingest.TruthfulIffNeverStranded` | src/click_rec/api/routers/events.py:44-59 | "duplicate" is truthful at every point of a run if and only if no step strands the claim, that is, ends the last attempt in flight with the key held and nothing delivered |
| `Ingest.DuplicateIsTruthful` | src/click_rec/api/routers/events.py:44-45 | and then an attempt told "duplicate" finds the event on the topic or another attempt in flight |
| `Ingest.StrandedClaimLosesEvent` | src/click_rec/api/routers/events.py:48-59 | a run in which the retry is told "duplicate" and nothing was published |
| `Ingest.EventKey.IngestOne` | src/click_rec/api/routers/events.py:37-61 | the code is a run of the state machine in which the attempt takes exactly the steps its faults and the key it finds call for; "duplicate" is answered if and only if the dedupe call works and finds the key held, every other attempt that does not raise there is answered as its publish ends, and after an unavailable Kafka and a release that took effect a retry can claim again |
| `Ingest.CallCounts` | src/click_rec/api/routers/events.py:44-61 | a call adds a claim error if and only if its own dedupe call errs, and an acknowledged publish if and only if it passes the gate and the broker acknowledges |
| `Ingest.CountedByAttempt` | src/click_rec/api/routers/events.py:44-61 | over any run the counts of claim errors and acknowledged publishes are those of this attempt and of the others together |
| `Ingest.EventKey.DedupeEventId` | src/click_rec/cache/redis_client.py:56-74 | without an error the call claims if and only if it finds the key free, and the key is held afterwards; a Redis error counts as a claim, whether or not the key was set |
| `Ingest.EventKey.PublishEvent` | src/click_rec/api/routers/events.py:48-59 | an acknowledged publish is accepted, a connection or timeout failure goes on to the release, any other failure does not |
| `Ingest.EventKey.ReleaseEventId` | src/click_rec/cache/redis_client.py:77-93 | an effective release frees the key; an error is swallowed |
| `Batch.IngestBatch` | src/click_rec/api/routers/events.py:113-138 | for any interleaving of the groups and any failures: one result per event, in input order; "accepted" if and only if its call was acknowledged and its group not cut off, "duplicate" if and only if its call found the key claimed and its group was not cut off, an error otherwise; accepted events are among the published ones and duplicates are not; the events published are exactly those that got their turn and were tried, each user's in input order, each at most once |
| `Batch.ExpectedIsSound` | src/click_rec/api/routers/events.py:79-110 | every such result belongs to its event, with the id of its call when it came without one; when each kind of result is given, when an event gets its turn and when it counts as published |
| `Batch.RankOfPosition` | src/click_rec/api/routers/events.py:115-117 | an event stands in its group behind exactly its user's earlier events |
| `Batch.GroupByUser` | src/click_rec/api/routers/events.py:115-117 | groups are keyed by the users in order of first appearance and hold exactly each user's positions |
| `Batch.PositionsExact` | src/click_rec/api/routers/events.py:115-117 | a group holds exactly the positions of its user's events, in increasing order |
| `Batch.RunGroups` | src/click_rec/api/routers/events.py:87-110 | whatever the interleaving: exactly the groups cut off by an exception fail, the others have every result of theirs, and the publish log holds exactly the events tried, in per-user order |
| `Batch.Flatten` | src/click_rec/api/routers/events.py:124-135 | results of finished groups and errors for all events of failed ones answer every event once, as expected |
| `Batch.SortByIndex` | src/click_rec/api/routers/events.py:137-138 | sorting by index puts the result of event i at position i |
| `RecentClicks.TrimmedRefinesFullHistory` | src/click_rec/kafka/enrichment.py:137-154 | if an item's score never decreases, the ZADD-and-trim set after any click sequence is the top cap of the full history |
| `RecentClicks.LastSessionItemsExact` | src/click_rec/kafka/enrichment.py:131-134 | and for 1 <= n <= cap the last n session items are the newest n of the full history |
| `RecentClicks.StepExactIff` | src/click_rec/kafka/enrichment.py:149-154 | one step keeps the two equal if and only if it does not demote a kept item below a trimmed one |
| `RecentClicks.AgreesIffNeverDemotes` | src/click_rec/kafka/enrichment.py:137-154 | over a run, the trimmed set is the top of the full history at every point if and only if no click demotes a kept item below a trimmed one |
| `RecentClicks.LastItemsBounded` | src/click_rec/kafka/enrichment.py:131-134 | at most n items come back if and only if n > 0 or the set is empty |
| `RecentClicks.LateClickDiverges` | src/click_rec/kafka/enrichment.py:149-154 | three clicks, the last out of order, after which the two differ |
| `RecentClicks.ReplayIsNoOp` | src/click_rec/kafka/enrichment.py:142-145 | recording the same click again changes nothing, even when the trim has dropped it |
| `RecentClicks.RecentClicksKey.Consume` | src/click_rec/kafka/enrichment.py:137-154 | the stored set after a sequence of clicks |
| `ZSets.TopSize` | src/click_rec/kafka/enrichment.py:151-152 | the trim leaves min(cap, size) members |
| `ZSets.KeptBeatTrimmed` | src/click_rec/kafka/enrichment.py:151-152 | every kept member ranks above every trimmed one |
| `ZSets.TrimKeepsHead` | src/click_rec/kafka/enrichment.py:131-134 | trimming to cap does not change the first n <= cap entries of the listing |
| `CoClicks.CombinationsExact` | src/click_rec/kafka/enrichment.py:203-206 | a window contributes exactly the ordered pairs of its different items |
| `CoClicks.TableCanonical` | src/click_rec/kafka/enrichment.py:206-213 | rows always satisfy item_a < item_b |
| `CoClicks.RowCountsWindows` | src/click_rec/kafka/enrichment.py:203-214 | a row counts exactly the windows that hold both of its items |
| `CoClicks.UpsertedCounts` | src/click_rec/kafka/enrichment.py:203-214 | an upsert counts each ordered pair of different window items once more and leaves the other rows alone |
| `CoClicks.LinksCountTogether` | src/click_rec/ranker/features.py:259-301 | the rows linking a candidate to recent items sum to the number of (window, recent item) pairs shared with it |
| `CoClicks.CoClickStore.UpsertCoClicks` | src/click_rec/kafka/enrichment.py:186-214 | every ordered pair of different items of the window is incremented once, all other rows stay |
| `CoClicks.CoClickStore.CoClickScores` | src/click_rec/ranker/features.py:269-301 | whatever the row order, each candidate gets the sum of its rows with recent items other than itself |
| `CoClicks.ScoreAfter` | src/click_rec/ranker/features.py:269-301 | write and read side together: after any windows each candidate's score is the number of (window, r) pairs with r recent, r different from it, and both in the window, also when it is recent itself |
| `CoClicks.BothEndsCount` | src/click_rec/ranker/features.py:293-300 | a row whose two ends are both candidate and recent exists, and counts once for each end |
| `Enrichment.Stores.ApplyEnrichment` | src/click_rec/kafka/enrichment.py:266-282 | the window is the current click and then the session as it was before the click; the click is recorded afterwards |
| `Enrichment.Stores.Consume` | src/click_rec/kafka/enrichment.py:266-282 | enriching events once and in order gives each user's trimmed set and the table of all windows |
| `Enrichment.GetLastSessionItems` | src/click_rec/kafka/enrichment.py:131-134 | the newest n members, newest first |
| `Enrichment.WindowsAreExact` | src/click_rec/kafka/enrichment.py:269-273 | with window <= cap and non-decreasing scores, every window is the one of the full history |
| `Enrichment.RowCountsSharedSessions` | src/click_rec/kafka/enrichment.py:266-282 | a co-click row counts the clicks whose session, taken from the full click history, holds both items |
| `Enrichment.CurrentClickIsLinked` | src/click_rec/kafka/enrichment.py:270-273 | the current click is never sliced out: it heads the window, with the user's last item behind it, and is linked with every other item of it |
| `Enrichment.WindowInFull` | src/click_rec/kafka/enrichment.py:269-273 | the window holds min(window, size + 1) entries: the clicked item, and behind it the newest items of the set, newest first |
| `Popularity.TickIsDecayedTop` | src/click_rec/cache/popularity_refresher.py:46-74 | after a tick at most max members remain: the top of the old set, at decayed scores, in the old order |
| `Popularity.TickOfMember` | src/click_rec/cache/popularity_refresher.py:57-72 | a top member stays if and only if its score times the factor exceeds one millionth, and then with that product |
| `Popularity.TopKey.RefreshOneCategory` | src/click_rec/cache/popularity_refresher.py:46-74 | trim, rewrite and removal together make one tick |
| `Popularity.ScoreBounded` | src/click_rec/cache/popularity_refresher.py:57-68 | with uninterrupted ticks and at most c clicks on an item between them its score stays in [0, c / (1 - decay)] forever |
| `Popularity.ScoreBoundedSinceTick` | src/click_rec/cache/popularity_refresher.py:57-68 | the invariant behind it: after k clicks since the tick the score is at most bound - c + k |
| `PopularityRace.RacedScoreBounded` | src/click_rec/cache/popularity_refresher.py:46-74 | with clicks between any two commands of the refreshes and at most c on an item between two reads, its score is never negative and exceeds c / (1 - decay) if and only if the refresh under way has read it and not yet replaced or removed it and the score read plus the clicks since then exceeds it; so the bound holds outside refreshes and for rewritten members and newcomers |
| `PopularityRace.OvershootInsideRefresh` | src/click_rec/cache/popularity_refresher.py:57-72 | a run that exceeds the plain bound inside a refresh |
| `PopularityRace.RefreshIsRaced` | src/click_rec/cache/popularity_refresher.py:55-72 | one refresh command by command, with clicks behind each command, is the raced refresh |
| `Popularity.IdleDecays` | src/click_rec/cache/popularity_refresher.py:60-72 | an item that is not clicked decays geometrically and stays above the floor while it is kept |
| `Popularity.IdleItemIsRemoved` | src/click_rec/cache/popularity_refresher.py:63-72 | and is removed after a number of ticks computed from its score |
| `Popularity.TicksToFloorSuffice` | src/click_rec/cache/popularity_refresher.py:62-66 | that many ticks bring any score to the floor or below |
| `Popularity.RacedScore` | src/click_rec/cache/popularity_refresher.py:57-72 | exactly which clicks between ZRANGE, ZADD and ZREM are lost for survivors, dropped members and newcomers |
| `Popularity.RaceBounded` | src/click_rec/cache/popularity_refresher.py:57-72 | against an atomic decay a member loses at most the clicks between ZRANGE and ZREM plus the floor, and gains nothing |
| `Popularity.RaceFreeIsTick` | src/click_rec/cache/popularity_refresher.py:57-72 | without such clicks the refresh is the uninterrupted tick |
| `ItemMeta.ItemMetaCache.ResolveItemMeta` | src/click_rec/kafka/enrichment.py:103-128 | answers as a direct lookup, queries only on a miss of both caches, and keeps the caches valid |
| `ItemMeta.ItemMetaCache.ResolveAll` | src/click_rec/kafka/enrichment.py:103-128 | so does any sequence of lookups |
| `ItemMeta.ItemMetaCache.ValidCaches` | src/click_rec/kafka/enrichment.py:74-100 | the two caches are disjoint; they hold at most cap entries each if and only if cap >= 1 or nothing was looked up |
| `ItemMeta.ItemMetaCache.EvictIfFull` | src/click_rec/kafka/enrichment.py:85-91 | drops the oldest max(1, cap // 10) entries of a full cache and keeps the rest as they are |
| `ItemMeta.ItemMetaCache.EvictNegativeIfFull` | src/click_rec/kafka/enrichment.py:94-100 | drops as many arbitrary entries of the negative set |
| `Ndcg.NdcgInUnitInterval` | src/click_rec/eval/_replay.py:35-43 | NDCG@k lies in [0, 1] for every non-negative list and every k |
| `Ndcg.NdcgIsOneIff` | src/click_rec/eval/_replay.py:35-43 | it is 1 if and only if k is positive, some value is positive and the first k values are the k largest in descending order |
| `Ndcg.NdcgComparesDcg` | src/click_rec/eval/_replay.py:35-43 | two orders of the same values score in proportion to their truncated DCGs |
| `Ndcg.NdcgTimesIdeal` | src/click_rec/eval/_replay.py:35-43 | the score times the DCG of the descending order is the DCG of the list, also when that is 0 |
| `Ndcg.SwapRaisesNdcg` | src/click_rec/eval/_replay.py:35-43 | moving a larger value forward to one of the first k positions, in exchange for a smaller one, strictly raises the score |
| `Ndcg.OneRelevantScores` | src/click_rec/eval/_replay.py:35-43 | a single relevant item at position p scores disc(p) / disc(0) if p < k and 0 otherwise |
| `Ndcg.DescendingScoresOne` | src/click_rec/eval/_replay.py:35-43 | a descending list that is not all zero scores 1 |
| `Ndcg.IdealIsMaximal` | src/click_rec/eval/_replay.py:39-43 | the truncated DCG of any order is at most that of the descending sort, with equality only for the same first k values |
| `Ndcg.DominanceGivesDcg` | src/click_rec/eval/_replay.py:31-32 | larger prefix sums give at least the DCG, and the same DCG only to the same list (summation by parts) |
| `Ndcg.TopSumsMost` | src/click_rec/eval/_replay.py:40-40 | no choice of k values sums to more than the first k of the descending sort |
| `Ndcg.SortCorrect` | src/click_rec/eval/_replay.py:40-40 | the descending sort is descending and a permutation |
| `Ndcg.MrrAtK` | src/click_rec/eval/_replay.py:46-51 | the reciprocal rank of the first positive value within the slice, 0 if there is none |
| `Scorer.MinMaxRange` | src/click_rec/ranker/scorer.py:43-66 | normalised values lie in [0, 1] and a missing signal is worth 0 |
| `Scorer.LoneMatchIsOne` | src/click_rec/ranker/scorer.py:48-50 | the only candidate with a value gets 1 |
| `Scorer.MinMaxInterpolates` | src/click_rec/ranker/scorer.py:51-66 | least 0, greatest 1, linear in between; a constant column is worth nothing |
| `Scorer.MinMaxMonotone` | src/click_rec/ranker/scorer.py:43-66 | a raw value at least as good, missing being lowest, is normalised to at least as much |
| `Scorer.MinMaxAffine` | src/click_rec/ranker/scorer.py:43-66 | a positive affine rescaling of the raw column changes no normalised value |
| `Scorer.Score` | src/click_rec/ranker/scorer.py:69-106 | succeeds if and only if all seven columns are present and equally long; then each breakdown entry is the configured weight of its own name times the normalised column of its own name, and the score is the sum of the seven; exactly which feature raises the missing-column or the length error otherwise, and that the index error is raised if and only if some empty columns lead and the others are equally long |
| `Scorer.EmptyBm25Slips` | src/click_rec/ranker/scorer.py:78-88 | an empty first column with six longer ones gets past the length check |
| `Scorer.ScoreIsBreakdownSum` | src/click_rec/ranker/scorer.py:97-106 | each score is the sum of its breakdown over the seven features |
| `Scorer.TotalRange` | src/click_rec/ranker/scorer.py:97-106 | with non-negative weights a score lies between 0 and the sum of the weights |
| `Scorer.TotalMonotone` | src/click_rec/ranker/scorer.py:97-106 | a candidate at least as good in every column never scores lower |
| `Scorer.TotalAffine` | src/click_rec/ranker/scorer.py:93-106 | a positive affine rescaling of any raw column changes no score |
| `Ranking.MergeChannels` | src/click_rec/ranker/candidates.py:214-226 | each surfaced id once, with the score the bm25 and the vector channel give it or none, each in its own field, within the cap |
| `Ranking.Bm25First` | src/click_rec/ranker/candidates.py:214-226 | the merged order starts with the bm25 ids in bm25 order |
| `Ranking.FetchCandidateRows` | src/click_rec/ranker/candidates.py:281-337 | joins rows to candidates in candidate order and drops those whose row is gone |
| `Ranking.FetchKeepsSubsequence` | src/click_rec/ranker/candidates.py:327-337 | the fetched list is exactly the subsequence of candidates whose row exists, with their channel scores |
| `Ranking.SelectTop` | src/click_rec/ranker/pipeline.py:215-215 | min(limit, n) candidates in non-increasing score, ties in candidate order, none beaten by an omitted one |
| `Ranking.RankQuery` | src/click_rec/ranker/pipeline.py:186-227 | the whole query path returns the top selection of the merged and fetched candidates under the scorer, each item with its own score and breakdown, which are the named products of its own features |
| `Ranking.Features` | src/click_rec/ranker/features.py:345-356 | the bm25 and vector columns hold the candidates' scores of that channel, every other column its signal for the candidate's item |
| `Ranking.AnswerIsSound` | src/click_rec/ranker/pipeline.py:215-224 | the answer holds distinct existing items surfaced by a channel, in non-increasing score |
| `Ranking.BetterCandidateRanksAhead` | src/click_rec/ranker/pipeline.py:212-224 | a candidate at least as good in every feature is returned ahead, unless the two tie and it comes later |
| `StableSort.SortedIndicesCorrect` | src/click_rec/ranker/pipeline.py:215-215 | the index sort is a stable permutation |
| `Reranker.Reorder` | src/click_rec/llm/re_ranker.py:49-75 | for distinct ids and any answer: a permutation of the candidates, picked ones first in stable rank order of their best pick with its rationale, the others untouched in their order |
| `Reranker.PlacePicks` | src/click_rec/llm/re_ranker.py:59-67 | known ids are placed once, by their first pick in rank order; unknown ids and repeats are dropped |
| `Reranker.PadWithOmitted` | src/click_rec/llm/re_ranker.py:69-75 | exactly the unmentioned candidates follow, in their original order |
| `Reranker.PermutationOfCandidates` | src/click_rec/llm/re_ranker.py:49-75 | placed and unmentioned candidates together are all candidates, once each |
| `Reranker.RerankTopK` | src/click_rec/llm/re_ranker.py:78-128 | answers only for a non-empty list and a successful LLM call, with a re-ordering of the first re_rank_input_k candidates |
| `Reranker.SearchResponse` | src/click_rec/api/routers/search.py:103-122 | the route's page: after a re-ranking the first `limit` entries of the re-ordered list, with its rationales, otherwise of the hybrid list; its exact length, and that it is full if and only if no re-ranking happened or the page or the hybrid list fits into the re-ranker's input |

## Left out

- Consumer.NothingLost: assumes that a poll starts at the committed offset; `FetchPosition` drops that assumption.
- FetchPosition.NoLossUnlessOvertaken: one direction only; `FetchPosition.NothingLostIff` is exact.
- Consumer.ExactlyOnceWhenSmooth: one direction only, for runs with faults before the first commit; without faults `ExactlyOnce.ExactlyOnceIff` is exact.
- ConsumerLoop.Partition.PollCycle: one partition per cycle; `FetchPosition.BuildCommits` covers the commit dict over several. Polls start at the committed offset.
- CacheAsideClient.ItemKey.WaitForFiller: the deadline is an arbitrary number of polls, not a clock.
- Batch.IngestBatch: what one call does to the dedupe key is in `Ingest`; here how each call ends is an arbitrary input.
- Dlq.Replayer.HandleDlqRecord: writing the quarantine file does not fail, and the quarantined row is kept without the surrounding diagnostics.
- Popularity.RaceBounded: clicks between the trim and ZRANGE are part of the set that was read.
- PopularityRace.RacedScoreBounded: one refresher per key, and a refresh that begins is completed; one cut off by a Redis error is not modelled.
- TTL lapse of `recent_clicks`, of the popularity counter and of the `items:top:*` keys.
- Command-level errors inside a Redis pipeline that let later commands of it succeed; a failed pipeline applies a prefix.
- Rebalances that hand a worker offsets other than the committed one, log retention and compaction, and message keys of the topic.
- Validation of clicks, JSON bytes, timestamps and UUIDs: a record is a validated click or a poison pill, caller ids are distinct.
- Text of error details, log records, metrics and traces.
- Changes of the item table during a run; a deleted item can stay cached until its key expires.
- Candidate channels other than the query path's, SQL text ranking and vector search, which are arbitrary input lists.
- The values of the popularity, recency, personal and price-fit features, which are arbitrary signals.
- Floating-point rounding, and the values of `exp` and `log2`.
- Holdout preparation and the evaluation pass around the metrics.
- The LLM client, prompts, query understanding, embedder, web framework wiring, configuration, seeding and load tools.
