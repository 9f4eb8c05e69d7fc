# The sync service, verified

The service replicates social posts between regional clusters. An event enters a cluster through
its local API, through a peer's cross-sync call or through the message queue; the cluster checks
it against an event log, judges it by GDPR rules, audits the decision, applies it to the global
post index, records it as processed and, if it came from the local API, broadcasts it to its
peers. Around this pipeline stand a Redis set that speeds up the event log, cached feeds, a peer
health table, a loop that pulls missing users from a peer, and a migration runner.

The project has one module per part. Code that changes state step by step is a class or a method
proved equal to a specification function; what the service promises is then proved of those
functions, for every input and every run.

- `Model`, `EventLog`, `PostIndex`, `FeedCache`, `Pipeline`: one run of the pipeline, as the HTTP
  handler and as the queue consumer perform it. `Env` records what every dependency answers, so
  "for all `Env`" means "whatever fails".
- `Interleaving`: any number of handlers whose single dependency calls interleave, with Redis
  expiring at any moment.
- `Redelivery`: batches handed out again and again until they are acknowledged.
- `Peers`, `CrossSync`, `Gossip`, `Delivery`: health bookkeeping, one broadcast, N clusters that
  broadcast to each other, and what arrives there.
- `UserIndex`: pull anti-entropy between N clusters.
- `Migrate`: runs of the migration runner that fail or crash between any two statements.
- `Utf8`, `TextArray`, `Hashtags`, `MediaUrls`, `Decimal`: the text algorithms, on bytes, with Go's
  UTF-8 decoding and 64-bit wrap-around written out.
- `Seqs`, `Wrappers`: sequences and option types shared by the others.

`dafny verify dfyconfig.toml` checks everything.

## Where a promise holds only under a condition

Each of these is proved in both directions. The condition speaks of the input, or of which log
writes fail.

- The two array parsers return the same parts exactly when the text between the braces is valid
  UTF-8 (`TextArray.ParsersAgreeIff`). Only the rune parser is used in production code.
- A printed list parses back to itself exactly when no element holds a quote or a backslash and the
  last element is not empty (`TextArray.RoundTripIff`, `TextArray.ScanRoundTripIff`); a media list is
  read back unchanged exactly when no URL holds a comma and it is not one empty URL
  (`MediaUrls.ReadBackIff`).
- Parsing a digit string is exact exactly below 2^63 (`Decimal.ExactIff`).
- Handler and consumer leave the same stores for exactly the events `Pipeline.Uniform` describes:
  they differ on tag events, on allowed stats events of posts the Regional DB lacks, and on events
  without a post uid (`Pipeline.PipelinesAgreeIff`).
- A broadcast is independent of the order in which its deliveries complete exactly when no URL is
  listed twice among the healthy peers (`CrossSync.ScheduleIndependentIff`).
- Clusters that each pull from their first peer agree after n - 1 rounds, from any start, exactly
  when the first-peer map is one cycle (`UserIndex.ConvergesIffOneCycle`).
- No migration is lost to a crash exactly when no two files share a version
  (`Migrate.NothingLostIff`).
- The preview of a valid text is valid UTF-8 exactly when the text has at most 500 bytes or byte 500
  does not continue a character (`PostIndex.PreviewValidIff`). PostgreSQL refuses the row otherwise, on
  every attempt: among others of any post of more than 166 three-byte characters
  (`PostIndex.IdeographsAreCut`).
- A batch can ever be acknowledged exactly when no message of it is malformed and every event it is
  expected to route has values the database takes (`Redelivery.AcknowledgeableIff`); a long post that
  is cut inside a character holds its batch up on every delivery (`Redelivery.LongPostBlocks`).
- The deliveries of a batch route no event twice, whatever fails, exactly when the first message that
  is malformed, or allowed and not yet processed, if there is one, is malformed, has values the
  database refuses, or is the last of the batch (`Redelivery.AlwaysOnceIff`).
- Clusters that apply the same writes per post, each by its own clock, differ in nothing but sync
  times exactly when every row that is born is born of a write with a creation time
  (`PostIndex.ClockFreeIff`); an update of an existing row needs none.
- An acknowledged batch has routed no event twice exactly when no allowed event is met again whose
  routing was not recorded (`Redelivery.ExactlyOnceIff`). Log writes that do not matter to this may
  fail. Where one does matter, an acknowledged batch can leave a row that shows the content an update
  had replaced (`Redelivery.UpdateIsLost`).
- However the handlers of some events overlap, the Redis set stays within the processed ids, no
  processed event is un-processed and every answer is the table's, exactly when no event can pass
  under an id under which one can be refused (`Interleaving.StableIff`). For one event this means that
  it is denied, that its values are always refused, or that its route makes no call that can fail
  (`Interleaving.OneEventStableIff`). Runs in which handlers of one event do not overlap keep all
  three whatever the events are (`Interleaving.SerialRunsRefine`), but nothing in the code keeps them
  apart.

One more promise holds under a condition that is sufficient, with a run that shows what happens
without it: if the log rows of submitted events are written, a cluster sends at most one message for
an id to each peer entry, ever, resets or not (`Gossip.OnceEver`). It takes both a lost record and a
reset that overtakes a broadcast to send two within one reset period (`Gossip.TwoMessages`,
`Gossip.OnceBounds`).

That an id Redis or the table calls processed was applied at least once holds in every run.

## Where the code is not what one might expect

The model follows the code, also where a comment says something else.

- A comment says a denied event is marked as processed (`internal/consumer/sync_consumer.go:128`); the
  row written has status `failed`, so a denied event is judged again whenever it comes back.
- The consumer treats a missing post as a failed stats update, the handler as a success, though both
  read the same table (`internal/consumer/sync_consumer.go:202-212`,
  `internal/handler/sync_handler.go:325-336`).
- The routing of a delete announces an invalidation of feed caches
  (`internal/handler/sync_handler.go:295`); nothing is invalidated.
- A delete does not win: an update that follows it inserts the row again
  (`internal/service/global_index.go:186-191`).

## Model

| member | source | states |
|---|---|---|
| Model.CheckAllowsExactly | internal/service/gdpr_checker.go:63-120 | An event is let through exactly when it carries no content, or is not TIER_1, is TIER_3 or globally visible with consent, and, as TIER_4, has media URLs |
| Model.CheckByGuards | internal/service/gdpr_checker.go:63-120 | Which of the eight results an event gets, guard by guard |
| EventLog.SyncEventLogService.IsProcessed | internal/service/event_log.go:48-68 | The answer and the cache afterwards, case by case: the cache answers, the table fails, the table says yes and refills, the table says no; with a cache inside the processed ids every answer is the table's |
| EventLog.SyncEventLogService.MarkProcessed | internal/service/event_log.go:71-95 | The log row column by column (first type and region stay, the failure is overwritten), and the id in Redis exactly on a success that table and Redis accept |
| EventLog.MarkKeeps | internal/service/event_log.go:71-95 | A mark that un-processes nothing keeps Redis inside the processed ids, and the processed ids grow by exactly the marked event, if it succeeded and the row was written |
| PostIndex.GlobalIndexService.InsertPost | internal/service/global_index.go:62-144 | Every column of the row from the payload, and which of them a conflicting row keeps (counts, compliance, mentions, creation time); no other row changes; values the columns do not take are refused |
| PostIndex.GlobalIndexService.UpdatePost | internal/service/global_index.go:147-197 | Every content column from the payload, the author kept; a post without a row falls back to an insert that can fail by itself; values the columns do not take are refused |
| PostIndex.StorableIff | pkg/migrations/global_index/007_add_author_metadata_to_post_index.sql:3-6 | In terms of the event, exactly what makes the database take a create or an update |
| PostIndex.PreviewValidIff | internal/service/global_index.go:407-412 | The preview of a valid text is valid iff the cut falls between two characters |
| PostIndex.IdeographsAreCut | internal/service/global_index.go:407-412 | Any text of more than 166 three-byte characters is valid and has an invalid preview |
| PostIndex.HashtagsAreText | internal/service/global_index.go:375-405 | Hashtags are always valid UTF-8 without NUL |
| PostIndex.GlobalIndexService.DeletePost | internal/service/global_index.go:200-214 | Removes the row of this post and no other |
| PostIndex.GlobalIndexService.UpdateStats | internal/service/global_index.go:217-230 | Sets the counts of an existing row; without a row nothing happens |
| PostIndex.FoldPerPost | internal/service/global_index.go:62-230 | After any writes, a post's row is the fold of the writes to that post alone |
| PostIndex.Convergence | internal/service/global_index.go:62-230 | Two write sequences with the same per-post subsequences leave the same index |
| PostIndex.ConvergenceAcrossClocks | internal/service/global_index.go:62-230 | If clusters also read different clocks, they still agree on every column but synced_at and updated_at, and on created_at of every row not born of an undated write |
| PostIndex.RowClockFreeIff | internal/service/global_index.go:66-73 | A row is the same up to sync times under every choice of clocks iff the write that brought it into being carries a creation time |
| PostIndex.ClockFreeIff | internal/service/global_index.go:62-230 | The same for whole indexes: clocks show in nothing but sync times iff every birth is dated |
| PostIndex.ClosedForm | internal/service/global_index.go:75-103 | A row exists iff a create or update follows the last delete; compliance and creation time come from the first such write, content from the last, author from the last create or else the first writer, counts from the last stats write after it or zero |
| PostIndex.ClosedFormApplies | internal/service/global_index.go:75-103 | Whenever the row exists, each of its columns is that of the payload, metadata or counts of the write the closed form names |
| Pipeline.AuditLogService.Log | internal/service/gdpr_checker.go:174-202 | The audit table only grows, by one row, column by column that of this event and decision |
| Pipeline.SyncHandler.RouteEvent | internal/handler/sync_handler.go:276-316 | Type by type, when routing fails and what it does to index and feeds; feed errors do not fail the event |
| Pipeline.SyncHandler.HandleStatsUpdated | internal/handler/sync_handler.go:319-349 | Writes the Regional DB's counts; a post missing there is a success without a write |
| Pipeline.SyncHandler.ProcessEvent | internal/handler/sync_handler.go:228-273 | All four stores after a run, with early returns; a broadcast starts exactly for a local event that was applied |
| Pipeline.SyncConsumer.RouteEvent | internal/consumer/sync_consumer.go:170-225 | The same for the consumer: tag events are skipped, a post missing from the Regional DB is an error |
| Pipeline.SyncConsumer.HandleMessage | internal/consumer/sync_consumer.go:88-167 | All four stores after a message, and whether it is acknowledged |
| Pipeline.RunUnjudged | internal/handler/sync_handler.go:228-244 | An event that is malformed, known or cannot be looked up changes nothing but, on a table hit, the cache |
| Pipeline.RunAudited | internal/handler/sync_handler.go:246-248 | An event that reaches the GDPR check gets its audit row, column by column |
| Pipeline.RunDenied | internal/handler/sync_handler.go:250-253 | A denied event is logged as failed, and index and feeds stay |
| Pipeline.RunRefused | internal/handler/sync_handler.go:255-259 | So is one whose routing fails |
| Pipeline.RunApplied | internal/handler/sync_handler.go:255-261 | Any other is applied to index and feeds, logged as processed and cached |
| Pipeline.AppliedIsCached | internal/service/event_log.go:90-93 | Applied with table and Redis up, an event is known at the next lookup even if the table is down |
| Pipeline.RunKeepsLog | internal/handler/sync_handler.go:228-273 | One undisturbed run never lets Redis claim more than the table; the processed ids grow by exactly the event, if it was applied and its log row written |
| Pipeline.RoutableIff | internal/handler/sync_handler.go:276-316 | Some answers of the dependencies let an event be routed iff its own values can be stored |
| Pipeline.PipelinesAgreeIff | internal/consumer/sync_consumer.go:88-225 | Consumer and handler leave equal stores from every state under every failure pattern iff the event is uniform |
| Interleaving.SoloIsRun | internal/handler/sync_handler.go:228-261 | The single calls of an uninterrupted handler leave the index and the log that one run of the pipeline leaves, whatever fails |
| Interleaving.NothingSkippedUnapplied | internal/service/event_log.go:48-95 | Under every interleaving, failure and expiry: an id in Redis or marked processed was routed successfully, and so was every event a handler skipped |
| Interleaving.IndexStaysCompliant | internal/handler/sync_handler.go:246-261 | In every reachable state no row is TIER_1, each is TIER_3 or has consent, and each row's content is that of an allowed create or update of this very post that is TIER_3 or global with consent |
| Interleaving.ReachableRowsAreClosed | internal/service/global_index.go:75-103 | In every reachable state a post has a row iff a create or update of it follows its last delete, and every column is that of the payload, metadata or counts of the write that last set it |
| Interleaving.ReachableRowsFit | internal/service/global_index.go:75-103 | In every reachable state every row holds valid UTF-8 without NUL, within its column widths |
| Interleaving.WriteKeepsCompliance | internal/service/global_index.go:75-103 | No write by a compliant event breaks the compliance columns, though updates leave them as they were |
| Interleaving.SerialRunsRefine | internal/service/event_log.go:48-95 | Without overlap: at every step Redis lies inside the processed ids, no processed status reverts, and every answer equals the plain table lookup |
| Interleaving.OverlapUnprocesses | internal/service/event_log.go:80 | From any state where one handler has routed an event and another is about to route it: the first marks it processed, the second marks it failed, Redis still says processed |
| Interleaving.OverlapIsReachable | internal/handler/sync_handler.go:228-261 | Any two handlers of allowed events with one id, the second with a route that can fail, reach such a state from an empty system |
| Interleaving.StableIff | internal/service/event_log.go:48-95 | Every run that starts handlers for these jobs only, overlapping at will, keeps Redis inside the processed ids, processed statuses and the answers, iff no two of the jobs share an id under which one can pass (allowed, and stored if all works) and the other be refused |
| Interleaving.OneEventStableIff | internal/service/event_log.go:71-95 | For the handlers of one event: iff it is denied, its values are always refused, or its route makes no call that can fail |
| Redelivery.ConsumeBatch | pkg/rocketmq/rocketmq.go:104-115 | The callback's loop: stores and acknowledgement after a batch that stops at the first retry |
| Redelivery.MessageEffect | internal/consumer/sync_consumer.go:88-167 | One message is routed and is done, recorded or not, or leaves index and what is done alone |
| Redelivery.BatchEffect | pkg/rocketmq/rocketmq.go:104-115 | One delivery routes exactly the next stretch of what is still expected, and all of it if acknowledged |
| Redelivery.RedeliveryExactlyOnce | pkg/rocketmq/rocketmq.go:104-115 | Whatever lookups, routings and log writes fail, as long as no allowed event is met again whose routing was not recorded: an acknowledged batch has routed every distinct allowed event exactly once, in batch order |
| Redelivery.WritableLosesNothing | internal/consumer/sync_consumer.go:151-159 | If every log row can be written, no routing goes unrecorded |
| Redelivery.ExactlyOnceIff | pkg/rocketmq/rocketmq.go:104-115 | An acknowledged batch routed no id twice iff no lost record was met again |
| Redelivery.UpdateIsLost | internal/consumer/sync_consumer.go:151-159 | From any state: a create whose record is lost, an update and a refused delete end, one redelivery later, acknowledged, all processed, and with the content of the create |
| Redelivery.AcknowledgeableIff | internal/consumer/sync_consumer.go:88-167 | From any state whose cache lies inside its log, some run of deliveries is acknowledged iff no message is malformed and every expected create or update has values the database takes |
| Redelivery.LongPostBlocks | internal/service/global_index.go:407-412 | A batch with an allowed, unprocessed create of more than 166 three-byte characters is never acknowledged, whatever the dependencies answer |
| Redelivery.AlwaysOnceIff | pkg/rocketmq/rocketmq.go:104-115 | Deliveries route no id twice under any failures iff the first message that is malformed, or allowed and unprocessed, is malformed, unstorable or the last |
| Redelivery.RoutedIsAudited | internal/consumer/sync_consumer.go:115-127 | The audit table only grows, and every routed event has a row that allows it, if the row could be inserted |
| Redelivery.ClustersConverge | internal/consumer/sync_consumer.go:88-167 | Two clusters with equal index and processed ids that both get the batch acknowledged, without meeting a lost record again, end with equal rows, however their deliveries failed: up to sync times, the counts of posts with a stats event, and the creation time of rows born undated |
| Peers.PeerManager.constructor | internal/peer/peer_manager.go:27-41 | Every configured URL starts healthy with no failures, in order |
| Peers.PeerManager.HealthyPeers | internal/peer/peer_manager.go:44-55 | Returns the URLs of the healthy entries |
| Peers.PeerManager.CheckHealth | internal/peer/peer_manager.go:70-77 | Every entry takes over the outcome of its own check |
| Peers.PeerManager.CheckPeer | internal/peer/peer_manager.go:80-91 | Checks the first entry with the URL; healthy only if it is known and answered |
| Peers.PeerManager.MarkUnhealthy | internal/peer/peer_manager.go:94-106 | Counts a failure on the first entry with the URL and on no other |
| Peers.PeerManager.MarkHealthy | internal/peer/peer_manager.go:109-121 | Clears the first entry with the URL and no other |
| Peers.PeerIsItsHistory | internal/peer/peer_manager.go:27-156 | After any checks and marks an entry keeps its URL, its fail count is the length of its current failure streak, and it is healthy iff that is 0 |
| Peers.HealthyIsFilter | internal/peer/peer_manager.go:44-55 | The healthy list is the order-preserving selection of exactly the healthy entries |
| CrossSync.CrossSyncService.SendToPeer | internal/sync/cross_sync.go:91-147 | Code by code: 200 to 299 is a success and clears the first entry with the URL, no response or 500 and above counts a failure on it, any other reply changes nothing |
| CrossSync.CrossSyncService.Broadcast | internal/sync/cross_sync.go:40-82 | A repeated id returns 0 and changes no peer; a new one is remembered and yields the number of replies from 200 to 299 |
| CrossSync.BroadcastClosedForm | internal/sync/cross_sync.go:64-75 | With distinct URLs each entry is settled, code by code, by the reply to its own URL alone |
| CrossSync.SuccessesPermute | internal/sync/cross_sync.go:64-75 | The count does not depend on the order of completion |
| CrossSync.ScheduleIndependentIff | internal/sync/cross_sync.go:40-147 | Every order of completion gives the same count and peer table iff no healthy URL is listed twice |
| CrossSync.DuplicateUrlsRace | internal/peer/peer_manager.go:94-121 | With a URL listed twice there are two orders of the same replies that leave different tables |
| Gossip.GossipIsSafe | internal/sync/cross_sync.go:40-87 | In every N-cluster run, what a cluster has emitted or is about to emit since its last reset is at most one message per peer entry and event id, plus one for each broadcast the reset overtook; and only for events submitted to it, allowed and applied by it |
| Gossip.AcceptancesPay | internal/sync/cross_sync.go:40-82 | In every run, resets or not, the messages a cluster has sent and may still send for an id to a peer entry are at most the events of that id it accepted |
| Gossip.OnceEver | internal/sync/cross_sync.go:40-87 | If the log rows of submitted events are written: at most one message per id and peer entry in the whole run, whatever resets come |
| Gossip.OnceBounds | internal/sync/cross_sync.go:85-89 | Otherwise: the messages for an id and peer entry since the last reset are at most one, plus the broadcasts of that id the reset overtook |
| Gossip.TwoMessages | internal/sync/cross_sync.go:40-52 | From any start, a lost record and an overtaking reset let a cluster send two messages for one id to one peer entry within one reset period |
| Delivery.EveryoneHears | internal/sync/cross_sync.go:40-82 | Without lost messages, unhealthy entries and failing stores at the receivers: once nothing is left to begin, send or receive, every id a cluster accepted is processed at every cluster it knows, resets and expiries included |
| Gossip.GossipDiesOut | internal/handler/sync_handler.go:263-270 | Without new submissions the number of further traffic steps is bounded by the measure of the state, resets or not |
| Gossip.MessagesAreBounded | internal/sync/cross_sync.go:40-82 | In all, at most one message per submission and peer entry is ever sent, resets or not |
| UserIndex.UserIndexReconciler.UpsertUserIndex | internal/service/global_index.go:549-558 | Overwrites the row of this uid |
| UserIndex.UserIndexReconciler.Reconcile | internal/sync/user_index_reconciler.go:62-116 | A failed fetch or listing changes nothing; otherwise the missing rows are upserted in order, and `synced` is the number of entries that were missing and accepted |
| UserIndex.PulledRow | internal/sync/user_index_reconciler.go:92-103 | A pass keeps every own row unchanged and adds exactly the peer's rows whose upsert succeeded |
| UserIndex.RoundsClosedForm | internal/sync/user_index_reconciler.go:62-116 | After k rounds cluster i knows exactly the users that i, p(i), ..., p^k(i) started with |
| UserIndex.RoundsAreSteps | internal/sync/user_index_reconciler.go:62-116 | Those rounds are what fetch and pull steps amount to, in whatever order rows are listed |
| UserIndex.ConvergesIffOneCycle | internal/server/server.go:152-156 | All clusters know the same users after n - 1 rounds, from every start, iff following first peers is one cycle through all of them |
| UserIndex.AgreementIsKept | internal/sync/user_index_reconciler.go:62-116 | Under any order of fetches and pulls, stale or failing, tables that agree keep agreeing, and nobody loses or changes a row |
| Migrate.VersionOfName | pkg/migrate/migrate.go:184-190 | A zero-padded number before an underscore is the file's version, unless it exceeds 64 bits |
| Migrate.VersionIff | pkg/migrate/migrate.go:184-190 | A name has a version exactly when what precedes its first underscore is a signed decimal number of 64 bits, and that is it |
| Migrate.GetMigrationFiles | pkg/migrate/migrate.go:124-158 | An error iff the directory or a migration file cannot be read; else the result is ordered by version, holds each file as often as there are readable .sql entries with its name, version and content, and among them every properly numbered one |
| Migrate.SortingUnique | pkg/migrate/migrate.go:153-155 | With distinct versions there is one such listing, whatever the sort does |
| Migrate.FileNameForVersion | pkg/migrate/migrate.go:160-171 | The name of the first file with the version; none iff no file has it |
| Migrate.Runner.RecordApplied | pkg/migrate/migrate.go:106-116 | Records the version once; the first name stays |
| Migrate.Runner.Run | pkg/migrate/migrate.go:40-76 | What is executed, recorded, reported and returned, wherever the run fails or crashes |
| Migrate.RunEffect | pkg/migrate/migrate.go:56-75 | From n recorded files a run executes, records and reports the next ones up to the first it cannot complete, executes that one too if only its record fails, and succeeds iff there is none |
| Migrate.CrashSafe | pkg/migrate/migrate.go:40-76 | After any failing or crashing runs the recorded files are a prefix of the listing, executions follow its order with repeats only in a row, and at most the next file is executed but unrecorded |
| Migrate.SuccessIsFinal | pkg/migrate/migrate.go:40-76 | A successful run leaves every file recorded and the run after it changes and applies nothing |
| Migrate.StutteringCovers | pkg/migrate/migrate.go:56-73 | Every recorded file was executed |
| Migrate.NothingLostIff | pkg/migrate/migrate.go:56-73 | Every successful run has executed every file, whatever happened before, iff versions are distinct |
| FeedCache.ZRevRange | pkg/redis/redis.go:79-82 | The k best members with their scores, in nonincreasing order |
| FeedCache.FeedGenerator.GetFeed | internal/service/feed_generator.go:267-295 | A hit exactly when the set holds at least `limit` posts; otherwise the source answers and the set is replaced as far as Redis allows |
| FeedCache.AddedAt | internal/service/feed_generator.go:374-388 | A filled set holds exactly the posts of the page and of what was not cleared, with the scores last given |
| FeedCache.FeedGenerator.InvalidateGlobalFeedCache | internal/service/feed_generator.go:133-156 | Exactly the keys that SCAN listed before it failed, in rounds whose DEL was accepted, are gone |
| FeedCache.FeedGenerator.HandleNewPost | internal/service/feed_generator.go:96-118 | After the invalidation a feed gets the post exactly if the follower count is known and below the threshold, the followers are known, it is the following feed of one of them, and the write is accepted |
| FeedCache.PageIsServed | internal/service/feed_generator.go:329-388 | After a page of distinct posts is cached, a read of k is a hit iff k is at most its size, and any reply is the k best pairs of the page |
| FeedCache.NewPostEffect | internal/service/feed_generator.go:133-221 | After an error-free invalidation no global feed is cached, trending feeds are untouched, following feeds change only by the post pushed to followers |
| Hashtags.ExtractHashtags | internal/service/global_index.go:375-400 | Exactly the maximal nonempty tag runs that follow a '#', once each, in order of first occurrence, on every byte string |
| Hashtags.TagCharBounds | internal/service/global_index.go:402-404 | Letters, digits and the underscore are tag characters, their neighbours are not |
| Hashtags.ListsTagsUnique | internal/service/global_index.go:375-400 | Only one list fits that description |
| MediaUrls.ReadBackIff | internal/service/global_index.go:271-274 | Joining and splitting returns the list iff no URL holds a comma and it is not one empty URL |
| TextArray.ParseTextArray | internal/service/global_index.go:517-544 | The byte parser computes the quote-aware segments |
| TextArray.Scan | internal/service/global_index.go:326-372 | The rune parser, for NULL, text and values of other types |
| TextArray.ParseConserves | internal/service/global_index.go:517-544 | The parts concatenate to the text without quotes and unquoted commas; their number is the unquoted commas plus one, minus one if the last segment is empty |
| TextArray.ParsersAgreeIff | internal/service/global_index.go:326-372 | Both parsers return the same list iff the braced text is valid UTF-8 |
| TextArray.RoundTripIff | internal/service/global_index.go:517-544 | PostgreSQL's printed form parses back iff elements hold no quote or backslash and the last is not empty |
| TextArray.ScanRoundTripIff | internal/service/global_index.go:337-371 | The same for the rune parser on UTF-8 elements |
| Utf8.EncodeDecode | internal/service/global_index.go:349-362 | Reading a well-formed rune and appending it gives back its bytes |
| Utf8.MalformedIff | internal/service/global_index.go:349-362 | A text is malformed at its head exactly when no Unicode scalar value is written there |
| Utf8.DecodeEncode | internal/service/global_index.go:349-362 | Every scalar value is read back from what is written for it, whatever follows |
| Decimal.ParseInt64 | internal/handler/sync_handler.go:214-223 | An error iff some character is not a digit; else the signed 64-bit value congruent to the numeral |
| Decimal.ExactIff | internal/handler/sync_handler.go:214-223 | The result is the numeral iff that is below 2^63 |
| Decimal.ParsePrint | internal/handler/sync_handler.go:214-223 | Parsing inverts decimal printing iff the number is below 2^63 |

## Left out

- HTTP, JSON, SQL, Redis and RocketMQ themselves: a statement has its effect on a map, set or sorted set, or fails without effect.
- A dependency whose effect happens but whose reply is lost, except in migrations, where the two are separate steps.
- Clocks: process time and the database's NOW() are one abstract number; the creation time of an event is already parsed, or absent.
- Redis TTLs: the processed set can vanish as a whole at any step of `Interleaving`; the expiry of single feeds is not modelled.
- The tag index tables: a tag write succeeds or fails, always so if the name does not fit, and does not touch the post index.
- Event ids, event type names, regions and data categories that do not fit their columns (64, 32, 16 and 20 characters, no NUL): the types of the model leave such names out; the log or an insert would refuse them on every attempt. Values that exceed a VARCHAR by spaces alone, which PostgreSQL cuts off, count as refused, and the size limits of index entries, which a hashtag of several thousand bytes can exceed, are not modelled.
- Reading rows back from SQL, apart from media URLs and arrays; NULL and an empty array are one value.
- Error messages: a failed log row carries a tag for its cause; a routing error with an empty message cannot occur in the code and is not modelled.
- The ranking formula and floating point: feed scores are real inputs. The order of equal scores in Redis is left open.
- The feed cursor, which the code ignores, and the `hasMore` flag; the HTTP layer passes limits of at least 1, which `FeedCache.FeedGenerator.GetFeed` asks for; unknown feed types are read as following feeds.
- The stats query and the update it leads to are one step of `Interleaving`; a whole handler run is one step of `Gossip`, and so are the sends of one broadcast; no message arrives twice there.
- Feed keys during `Gossip` and `Redelivery`: only index, log and messages matter there.
- The LastCheck timestamps of peers, and the locking inside the peer table: marks are atomic.
- User-upsert gossip with its retries: it has no deduplication, so nothing bounds it.
- Other writes to the user index while clusters pull: a pull reads its own listing and writes at once, though what it fetched may be stale.
- The limit of five redeliveries: `Redelivery` covers any number of deliveries.
- Messages that cannot be decoded at all: they are retried like the malformed ones.
- `CheckUserConsent`, health endpoints, configuration, wiring: straight-line code the pipeline does not depend on.
- Decimal.ParseInt64: takes the text as the characters Go's `range` yields; an undecodable byte is one non-digit character.
- Migrate.SortByVersion: sort.Slice is an insertion sort here; what follows holds of any sorted permutation.
- Migrate.Runner.Run: a file whose SQL fails leaves no effect, as one implicit transaction; the record's INTEGER width is not modelled; the listing is read once, since embedded files do not change, and a listing that cannot be read counts as a run that was not prepared.
