# Verified model of the vehicle/robot interconnect bridge

A Dafny model of the message bridge between a vehicle and a robot: the policy engine and its cache, the wire codec
and protocol adapter, the publish and receive paths with their counters, configuration reload, the in-flight limiter
and the worker thread pool. `dafny verify dfyconfig.toml` checks everything.

Transports, clocks, the authenticator, the canary gates and the router are inputs: a transport is an oracle that
answers its n-th send with a code of its own choosing, and each call takes the other outcomes as parameters. Code
that updates fields is a class whose methods are proved equal to a step function on the object's abstract state; the
theorems are then about every sequence of such steps.

| file | part of the bridge |
|---|---|
| `Types`, `Decimal` | envelopes, policies, error codes; decimal printing and `std::stoull` parsing |
| `Codec`, `ProtocolAdapter`, `WireFormat` | escaping, splitting, full and compact text; header, length frame, mode fallback; the texts in literals |
| `PolicyEngine`, `PolicyLint`, `PolicySamples` | rule matching, per-topic index, best match, layer precedence, conflict report, sample envelopes |
| `Recency`, `PolicyCache`, `CacheRuns` | the 256-entry LRU cache and runs of resolutions and rebuilds |
| `CircuitBreaker`, `Sending`, `Publish`, `PublishRuns` | breaker, retry, backpressure, one publish, runs of publishes |
| `SlidingWindow`, `Tallies` | bounded first-in-first-out memory, per-key counters |
| `Inbound`, `InboundRuns`, `EndToEnd`, `FullPath` | the receive loop, runs of it, encoded message to handler, publish call to handler |
| `BridgeConfig`, `ConfigReload`, `ReloadMeaning`, `ReloadRuns`, `ReloadLimits` | normalization, signature, start, stop, reload |
| `FlowSlots`, `ThreadPool` | the two concurrent protocols, one step per atomic operation or mutex section |

## What holds only under a condition

The model follows the code. Where a plausible promise is false of the code, the exact condition is proved:

- The topic index answers like a full scan unless it hides a wildcard rule that would have counted, which can be read
  off the rules (`PolicyEngine.IndexAgreesWithScanIff`).
- The cache key has no source or target. The cache is transparent exactly for tables that never tell two envelopes of
  the same key apart, which a finite set of samples decides (`CacheRuns.TransparentIff`). For any table,
  `CacheRuns.CallIsTransparentIff` says which calls are affected, and `ReloadRuns.FailedReloadKeepsPolicyIff` which
  messages get another policy because a rejected reload emptied the cache.
- The lint report has false alarms: pairs of a named and a wildcard rule never meet in a lookup
  (`PolicyLint.ReportedPairMeetsIff`), and pairs that meet may always be outranked. `PolicyLint.ReportedPairTiesIff`
  decides for each reported pair, and `PolicyLint.LayerTiesIff` for a layer, whether any lookup is ever flagged.
- The header parser's comment promises to accept headers without a version token; it does so only for bodies
  without `;` (`ProtocolAdapter.OldFormatKeepsBody`).
- Restarting the limiter while somebody in flight still has to subtract, and only then, leaves its counter wrapped
  until the next restart (`FlowSlots.TuneSafeIff`): first the limit is loosened by what is owed
  (`FlowSlots.HoldersBounded`), then two owed subtractions make any ordinary limit refuse every lone publisher
  (`FlowSlots.LoneAcquireIff`). Refused publishers that have not backed out count against the
  limit (`FlowSlots.GrantedIff`), so one can be refused while nobody holds a slot.
- `Start(provider)` records the signature of the raw policy table, reload compares normalized ones: reloading
  unchanged policies works exactly for settled configurations (`ReloadLimits.SettledReloads`). Two expectations of the
  repository's own tests do not follow from the code for any signature that does its job
  (`ReloadLimits.ReloadTestExpectationFails`, `ReloadLimits.RollbackTestExpectationFails`).
- The signature ignores layers (`BridgeConfig.SignatureIgnoresLayers` says exactly what it sees) and the lock flag, so
  a frozen signature freezes neither (`ReloadLimits.LayersEscapeTheSignature`, `ReloadLimits.LockCanBeLifted`).
- A canary rejection of a start from a provider restores the rejected configuration itself
  (`ReloadLimits.CanaryRestoresTheRefused`), and starting a running bridge from a provider relabels the running
  configuration (`ReloadLimits.StartWhileRunningMislabels`).
- Only legacy-mode messages pass the receiver's validity gate, since compact bodies drop source and target; a locked
  default policy forces compact mode and so silences the bridge (`EndToEnd.PublishedThenReceived`,
  `EndToEnd.LockedBridgeDeliversNothing`).
- A message rescued by failover travels on the opposite transport, whose receiver is on the sender's own side
  (`FullPath.FailoverComesHome`).

## Model

| member | source | states |
|---|---|---|
| Decimal.ParseDecimal | src/interconnect/message_codec.cpp:192-200 | every 64-bit number survives printing and `std::stoull` |
| Codec.EscapeField | src/interconnect/message_codec.cpp:16-28 | the loop's output unescapes to its input |
| Codec.UnescapeField | src/interconnect/message_codec.cpp:30-57 | the flag-driven loop computes unescaping, including a dangling final backslash |
| Codec.SplitEscaped | src/interconnect/message_codec.cpp:59-85 | the parity-counting loop splits without losing a character: joining its fields restores the text |
| Codec.UnescapeEscape | src/interconnect/message_codec.cpp:16-57 | unescaping undoes escaping for every string |
| Codec.SplitJoin | src/interconnect/message_codec.cpp:16-85 | splitting the join of any non-empty list of escaped fields returns exactly those fields |
| Codec.DecodeMessage | src/interconnect/message_codec.cpp:181-229 | decoding with an in-out envelope that a failure leaves untouched |
| Codec.DecodeEncode | src/interconnect/message_codec.cpp:141-157 | a full message decodes to its envelope without the idempotency key exactly when the schema version is at least 1, and is refused otherwise |
| Codec.DecodeEncodeCompact | src/interconnect/message_codec.cpp:159-179 | the same for compact messages, which also lose source, target and trace id |
| Codec.DecodeRejectsLetters | src/interconnect/message_codec.cpp:181-205 | text whose first character is neither blank, sign nor digit (a leading separator included) is never a message |
| WireFormat.NumberMeans | src/interconnect/message_codec.cpp:192-200 | number fields: blanks, sign, digits and trailing text, with overflow and negative values |
| WireFormat.EscapesMean | src/interconnect/message_codec.cpp:16-28 | which characters are escaped, and with what |
| WireFormat.JoinMeans | src/interconnect/message_codec.cpp:141-179 | fields are joined by a bar |
| WireFormat.FullFields | src/interconnect/message_codec.cpp:141-157 | the eleven fields of a full message in order, names in literals |
| WireFormat.CompactFields | src/interconnect/message_codec.cpp:159-179 | the eight fields of a compact one |
| WireFormat.DecodeMeans | src/interconnect/message_codec.cpp:181-229 | exactly which texts decode, whoever wrote them, and what each field becomes |
| WireFormat.WireTexts | src/interconnect/message_protocol_adapter.cpp:123-133 | every mode's header and both frames in literals |
| WireFormat.BodiesMean | src/interconnect/message_protocol_adapter.cpp:152-195 | which body each mode carries |
| WireFormat.TagsMean | src/interconnect/message_protocol_adapter.cpp:39-53 | the four tags; an unknown one means legacy |
| WireFormat.HeadersMean | src/interconnect/message_protocol_adapter.cpp:59-93 | every shape a header can have and how it is read |
| WireFormat.HeaderlessDecodes | src/interconnect/message_protocol_adapter.cpp:197-247 | a text without header is tried as legacy, then in the receiver's mode; an empty one is refused |
| ProtocolAdapter.ParseFrameParts | src/interconnect/message_protocol_adapter.cpp:95-121 | a frame yields its payload iff the length token is non-empty, all digits and equal to the payload's size |
| ProtocolAdapter.ParseBuiltFrame | src/interconnect/message_protocol_adapter.cpp:123-125 | parsing a built frame returns its payload, whatever characters it holds |
| ProtocolAdapter.SplitWrapped | src/interconnect/message_protocol_adapter.cpp:59-93 | the header parser recovers mode and body of every wrapped message |
| ProtocolAdapter.DecodeInto | src/interconnect/message_protocol_adapter.cpp:197-247 | the declared-mode-then-receiver-mode decoder; a rejection leaves the caller's envelope unchanged |
| ProtocolAdapter.AllPairsInteroperate | src/interconnect/message_protocol_adapter.cpp:152-247 | for all 16 mode pairs decoding yields the sender mode's projection, independent of the receiver, iff the schema version is at least 1 |
| ProtocolAdapter.MarkedMessageAccepted | src/interconnect/message_protocol_adapter.cpp:197-247 | a message with its declared mode's marker is accepted, under every receiver mode, iff its frame is sound and the payload decodes |
| ProtocolAdapter.WrongLengthRejected | src/interconnect/message_protocol_adapter.cpp:95-121 | any message that declares a framed mode and carries its marker with a digit length that disagrees with the payload is rejected under every receiver mode, whatever its version token |
| ProtocolAdapter.OldFormatKeepsBody | src/interconnect/message_protocol_adapter.cpp:59-93 | a header without version token keeps its body iff the body has no ';' |
| ProtocolAdapter.OldFormatFrameRefused | src/interconnect/message_protocol_adapter.cpp:59-93 | hence every framed message behind such a header is refused |
| PolicyEngine.ScanFindsBest | src/interconnect/interconnect_bridge.cpp:790-820 | the scan returns the earliest rule of the highest matching priority, flagged iff a second candidate ties with it |
| PolicyEngine.BestIsUnique | src/interconnect/interconnect_bridge.cpp:790-820 | that description has one answer only |
| PolicyEngine.IndexRules | src/interconnect/interconnect_bridge.cpp:637-658 | the index lists, per named topic, exactly the rules naming it, in order, and no other topic |
| PolicyEngine.IndexIsExact | src/interconnect/interconnect_bridge.cpp:637-658 | the same of the index as a function of the rules |
| PolicyEngine.FindBestPolicyMatch | src/interconnect/interconnect_bridge.cpp:773-823 | the loop equals its specification for any index, and with a rebuilt one returns the best among rules naming the topic if any does, else among all |
| PolicyEngine.IndexAgreesWithScanIff | src/interconnect/interconnect_bridge.cpp:773-823 | indexed lookup equals the full linear scan iff no rule names the topic or no matching wildcard both has at least the priority of every matching named rule and, at equal priority, precedes them all or meets at most one |
| PolicyEngine.NoWildcardNoDifference | src/interconnect/interconnect_bridge.cpp:773-823 | no matching wildcard rule means no difference |
| PolicyEngine.IndexHidesWildcardExample | src/interconnect/interconnect_bridge.cpp:781-790 | a concrete table where index and scan differ |
| PolicyEngine.ResolvePrecedence | src/interconnect/interconnect_bridge.cpp:825-898 | with rebuilt indexes: chosen override, else chosen rule, else chosen template, else default; the override flag is raised iff an override applies |
| PolicyLint.ConflictIff | src/interconnect/interconnect_bridge.cpp:842-891 | with rebuilt indexes the conflict flag of a resolution is raised iff some layer has two candidates on top or the rule a layer uses has a lower priority than the rule a layer below would use |
| PolicyEngine.ResolveSeesOnlyKey | src/interconnect/interconnect_bridge.cpp:713-731 | without endpoint tests a resolution depends on topic, channel and qos alone |
| PolicyLint.OverlapIffCommonEnvelope | src/interconnect/interconnect_bridge.cpp:421-441 | rule-against-rule matching holds iff some envelope matches both rules |
| PolicyLint.CollectConflicts | src/interconnect/interconnect_bridge.cpp:469-493 | the nested loop reports exactly the conflicting pairs of a layer, each once |
| PolicyLint.TieIffTopPair | src/interconnect/interconnect_bridge.cpp:773-823 | a lookup raises the conflict flag iff some reported pair meets in it with no matching candidate above it |
| PolicyLint.ReportedPairTiesIff | src/interconnect/interconnect_bridge.cpp:469-493 | a reported pair can ever be the cause of a flag iff it is in one of six lookups, built from the rules, one per channel and qos |
| PolicyLint.LayerTiesIff | src/interconnect/interconnect_bridge.cpp:469-493 | a layer can ever raise the flag iff one of those finitely many lookups does |
| PolicyLint.CleanLayerNeverTies | src/interconnect/interconnect_bridge.cpp:811-817 | a layer with no reported pair never raises the conflict flag for any envelope |
| PolicyLint.ReportedPairMeetsIff | src/interconnect/interconnect_bridge.cpp:469-493 | a reported pair can meet in some lookup iff both rules name a topic or both are wildcards |
| PolicyLint.MixedPairsNeverTie | src/interconnect/interconnect_bridge.cpp:811-817 | a layer whose every reported pair mixes the two kinds never raises the conflict flag |
| PolicyLint.ReportedPairMayNeverTie | src/interconnect/interconnect_bridge.cpp:469-493 | a false alarm of two rules that never meet |
| PolicyLint.ShadowedPairNeverTies | src/interconnect/interconnect_bridge.cpp:469-493 | a false alarm of two rules that meet in every lookup below a third |
| Recency.RecencyOrdered | src/interconnect/interconnect_bridge.cpp:733-771 | earlier in the recency list means used later in the history |
| PolicyCache.StoredMeans | src/interconnect/interconnect_bridge.cpp:747-771 | list nodes plus key index stay coherent and store at the front, evicting the last of 257 |
| PolicyCache.PolicyResolver.LookupPolicyCache | src/interconnect/interconnect_bridge.cpp:733-745 | returns the entry of the key, moving it to the front; a miss changes nothing |
| PolicyCache.PolicyResolver.StorePolicyCache | src/interconnect/interconnect_bridge.cpp:747-771 | the stored key is in front, others keep their order, at most 256 remain |
| PolicyCache.PolicyResolver.ResolvePolicy | src/interconnect/interconnect_bridge.cpp:1312-1362 | answer, cache and all five counters after one call |
| PolicyCache.PolicyResolver.RebuildPolicyIndex | src/interconnect/interconnect_bridge.cpp:637-670 | all three indexes rebuilt, cache empty, counters kept |
| CacheRuns.LruIsExact | src/interconnect/interconnect_bridge.cpp:733-771 | after any run the cache holds exactly the 256 or fewer distinct keys used most recently since the last rebuild, newest first, without repeats |
| CacheRuns.AnswerIsEarned | src/interconnect/interconnect_bridge.cpp:1312-1362 | for every table and run: the uncached answer if the key is not among the 256 most recent since the last rebuild, else the answer for the one envelope that last brought the key in |
| CacheRuns.CallIsTransparentIff | src/interconnect/interconnect_bridge.cpp:1312-1362 | one call gets its own uncached answer iff whoever brought its key in, if anybody, resolves alike |
| CacheRuns.TransparentIff | src/interconnect/interconnect_bridge.cpp:713-771 | for every table: the cache is transparent in all runs iff the table never tells two envelopes of the same topic, channel and qos apart, and a finite set of sample envelopes built from the rules decides that |
| CacheRuns.CacheIsTransparent | src/interconnect/interconnect_bridge.cpp:1312-1362 | over every run of resolutions and rebuilds, if the table in force is of that kind, every answer is the uncached one |
| PolicySamples.SimplifiedResolvesAlike | src/interconnect/interconnect_bridge.cpp:825-898 | every envelope resolves as the sample that stands for it: strings no rule mentions are interchangeable |
| PolicySamples.SamplesDecide | src/interconnect/interconnect_bridge.cpp:713-731 | a table looks at topic, channel and qos alone iff it does so on its samples |
| PolicySamples.EndpointFreeIsDetermined | src/interconnect/interconnect_bridge.cpp:713-731 | a table whose rules test neither source nor target does |
| CacheRuns.HitsAndMissesSplitCalls | src/interconnect/interconnect_bridge.cpp:1312-1362 | over every run, for every table, hits and misses sum to the calls |
| CacheRuns.CallIsCounted | src/interconnect/interconnect_bridge.cpp:1312-1362 | after any run, a call counts as a hit iff its key is among the 256 most recent, else as a miss, and its answer's flags are counted |
| CacheRuns.RebuildKeepsCounts | src/interconnect/interconnect_bridge.cpp:637-670 | a rebuild changes no counter |
| CacheRuns.CountersAreTransparent | src/interconnect/interconnect_bridge.cpp:1312-1362 | if every table of the run is of that kind, override and conflict counters count as without a cache |
| CacheRuns.EndpointTestsDefeatTheCache | src/interconnect/interconnect_bridge.hpp:244-252 | two calls where a rule testing the source makes the cache wrong |
| SlidingWindow.BucketIsWindow | src/interconnect/interconnect_bridge.cpp:1164-1183 | remembering with eviction is exactly the last n accepted values, all different |
| SlidingWindow.RepeatsAreFarApart | src/interconnect/interconnect_bridge.cpp:1164-1183 | a value accepted twice had at least n acceptances in between |
| SlidingWindow.RememberedUntil | src/interconnect/interconnect_bridge.cpp:1164-1183 | a newly accepted value is remembered while fewer than n others were accepted since, and then forgotten unless it came again |
| CircuitBreaker.TransportOrchestrator.OnPrimarySendFailure | src/interconnect/transport_orchestrator.cpp:42-49 | the failure step on the wrapping streak counters |
| CircuitBreaker.TransportOrchestrator.OnPrimarySendSuccess | src/interconnect/transport_orchestrator.cpp:51-59 | the success step |
| CircuitBreaker.TransportOrchestrator.ResolveFailover | src/interconnect/transport_orchestrator.cpp:6-36 | the target is the opposite direction iff enabled, whatever the breaker state and the weights |
| CircuitBreaker.OpenIffTripped | src/interconnect/transport_orchestrator.cpp:42-59 | for every history and all thresholds the circuit is open iff some prefix ends in B failures and no R successes in a row follow |
| Sending.BackoffDoubles | src/core/retry_policy.cpp:14-38 | the k-th pause is the initial one doubled k times, capped |
| Sending.RetrySucceedsOnce | src/core/retry_policy.cpp:14-38 | a retry loop of n attempts makes at most n sends, one accepted iff it returns Ok |
| Sending.RetryMeans | src/core/retry_policy.cpp:14-38 | retries end at the first answer other than would-block, which is the result, or after n attempts with a timeout |
| Sending.SendsAtMostOnce | src/interconnect/interconnect_bridge.cpp:1080-1125 | one message is accepted at most once, exactly once iff Ok, within max(0, max_retries) + 3 sends |
| Sending.SendMeans | src/interconnect/interconnect_bridge.cpp:1080-1125 | on the policy's fields and the transport's answers: when the oldest message is discarded, when that counts as a drop and earns a second send, when retries follow, and what the result is |
| Publish.FallbackKeyIsExact | src/interconnect/interconnect_bridge.cpp:1164-1183 | within a topic fallback keys coincide iff source and sequence do |
| Publish.PublishPath.RetryOnWouldBlock | src/core/retry_policy.cpp:14-38 | the loop's result and sends, one pause per would-block answer, and the length of each pause |
| Publish.PublishPath.PublishWithBackpressure | src/interconnect/interconnect_bridge.cpp:1080-1125 | send, discard-and-resend, retry: result, sends, discards and drop count are those Sending.SendMeans describes |
| Publish.PublishPath.IsDuplicateWithinWindow | src/interconnect/interconnect_bridge.cpp:1164-1183 | duplicate iff the key is in the topic's bucket; otherwise it is remembered and the bucket trimmed to the window; PublishRuns.KeysDecide says what the key is |
| Publish.PublishPath.Publish | src/interconnect/interconnect_bridge.cpp:1189-1305 | the whole new state and the result code of one publish |
| PublishRuns.DeliversAtMostOnce | src/interconnect/interconnect_bridge.cpp:1189-1305 | both transports together accept a publish at most once, exactly once iff it returns Ok, within the send budget of each |
| PublishRuns.RefusedInOrder | src/interconnect/interconnect_bridge.cpp:1189-1258 | which gate refuses a call, on its own fields, with its code and its counters, everything else unchanged |
| PublishRuns.KeysDecide | src/interconnect/interconnect_bridge.cpp:1165-1175 | two calls of a topic in a row: explicit keys compare as they are, empty ones by source and sequence, mixed ones against the printed fallback text |
| PublishRuns.SentOutcome | src/interconnect/interconnect_bridge.cpp:1260-1305 | a sent message fails iff the primary fails and failover is disabled or fails too, with the primary's code; failover, transport-error and drop counters and both transports move accordingly |
| PublishRuns.CountersBalance | src/interconnect/interconnect_bridge.cpp:1189-1305 | over every run tx + tx_fail = calls, tx = messages accepted, tx - failover_hit = total of each of the topic, channel and qos maps |
| PublishRuns.SentByIsExact | src/interconnect/interconnect_bridge.cpp:1293-1302 | over every run each entry of the tx maps is the number of such messages their primary transport delivered |
| PublishRuns.WindowIsExact | src/interconnect/interconnect_bridge.cpp:1164-1183 | over every run with a fixed window a topic's bucket is the last max(1, window) accepted keys |
| PublishRuns.DroppedIffRemembered | src/interconnect/interconnect_bridge.cpp:1223-1234 | a publish is dropped as duplicate iff its key is among them |
| PublishRuns.RepeatIsDropped | src/interconnect/interconnect_bridge.cpp:1223-1258 | over every run: once accepted, a key is consumed whatever became of its call; every later use is dropped while fewer than max(1, window) keys of the topic were accepted since, and none after that unless it was presented again |
| PublishRuns.ImmediateRepeatIsDropped | src/interconnect/interconnect_bridge.cpp:1223-1258 | in any state and for any windows, the call right after is dropped |
| PublishRuns.CircuitOpenIff | src/interconnect/interconnect_bridge.cpp:1260-1305 | over every run the circuit is open iff the primary sends had three failures in a row and no two successes in a row since |
| FlowSlots.InvPreserved | src/interconnect/interconnect_bridge.cpp:1422-1465 | every atomic step keeps the limiter's invariant |
| FlowSlots.LimitRespected | src/interconnect/interconnect_bridge.cpp:1422-1465 | in every interleaving holders stay within a non-zero limit, the counter is holders plus refused callers still backing out, zero when idle |
| FlowSlots.GrantedIff | src/interconnect/interconnect_bridge.cpp:1422-1448 | an acquire is granted iff the limit is zero or holders plus callers backing out are below it |
| FlowSlots.RefusedWithoutHolders | src/interconnect/interconnect_bridge.cpp:1422-1448 | a reachable refusal with no slot held |
| FlowSlots.TuneSafeIff | src/interconnect/interconnect_bridge.cpp:1389-1398 | restart the limiter in any reachable state and let publishers come and go in any way until all have left: the counter is zero iff nobody who still had to subtract was in flight, else it has wrapped by exactly their number |
| FlowSlots.CanDrain | src/interconnect/interconnect_bridge.cpp:1450-1465 | from every state everybody in flight can leave |
| FlowSlots.LoneAcquireIff | src/interconnect/interconnect_bridge.cpp:1422-1448 | with nobody in flight and n subtractions too many, a lone publisher is granted a slot iff n = 1 or the limit reaches the wrapped counter, and a refused one changes nothing |
| FlowSlots.TuneAdmitsOneMore | src/interconnect/interconnect_bridge.cpp:1389-1398 | right after any restart the next publisher is let in however many hold a slot |
| FlowSlots.HoldersBounded | src/interconnect/interconnect_bridge.cpp:1389-1398 | in every run after a restart holders exceed the limit by at most the subtractions owed at the restart |
| FlowSlots.TuneInFlightUnderflows | src/interconnect/interconnect_bridge.cpp:1389-1398 | the shortest such run |
| ThreadPool.InvKept | src/core/thread_pool.cpp:55-154 | every step of callers, workers and Stop keeps the pool's invariant |
| ThreadPool.PoolAccounts | src/core/thread_pool.cpp:82-154 | in every interleaving the queue fits, tasks leave in order of entry, submitted = queued + running + executed |
| ThreadPool.EnqueueMeans | src/core/thread_pool.cpp:82-115 | in every run: a running pool with room takes the task at the back and counts it; a full one counts a rejection and hands it to the caller iff the policy is caller-runs; a stopped one does nothing |
| ThreadPool.CountersAreExact | src/core/thread_pool.cpp:82-115 | over every run submissions, rejections and completions are exactly the steps that make them |
| ThreadPool.WorkerMeans | src/core/thread_pool.cpp:134-154 | a worker takes the head of the queue, sleeps at an empty one, leaves when the pool is stopped too |
| ThreadPool.SleepersWake | src/core/thread_pool.cpp:141-143 | a sleeping worker wakes when notified, or spuriously |
| ThreadPool.CallersMean | src/core/thread_pool.cpp:107-112 | callers may submit or stop at any time and run what is handed back to them |
| ThreadPool.StopMeans | src/core/thread_pool.cpp:55-78 | the phases of a Stop, each with what it waits for and does; a second Stop does nothing |
| ThreadPool.StopLosesNothing | src/core/thread_pool.cpp:55-78 | when Stop swaps the queue out it is already empty and every queued task ran exactly once |
| ThreadPool.NeverStuck | src/core/thread_pool.cpp:134-154 | no wake-up is lost: with work queued or a Stop under way the pool can take a step of its own |
| ThreadPool.StopAdvances | src/core/thread_pool.cpp:55-78 | during a Stop every worker step lowers the remaining effort and no step raises it |
| ThreadPool.StopEnds | src/core/thread_pool.cpp:55-78 | in every run, until the join some worker can move, and after at most the initial effort of worker steps the join is possible |
| Inbound.NoteIsOffer | src/interconnect/interconnect_bridge.cpp:1550-1568 | one presentation of a trace id keeps map and deque in step and evicts first-inserted ids |
| Inbound.InboundLoop.NoteTrace | src/interconnect/interconnect_bridge.cpp:1550-1568 | the eviction loop on deque and map |
| Inbound.InboundLoop.ProcessInbound | src/interconnect/interconnect_bridge.cpp:1472-1629 | the whole receive loop, entered with any counts, equals the run of its step function |
| Inbound.RunsJoin | src/interconnect/interconnect_bridge.cpp:1472-1629 | a loop that continues where another stopped is one longer run |
| InboundRuns.ExpiredIffTooLate | src/interconnect/interconnect_bridge.cpp:30-42 | expired iff the latency bound is non-zero and it, or a non-zero time to live, has passed |
| InboundRuns.DeliveredInOrder | src/interconnect/interconnect_bridge.cpp:1472-1629 | exactly the decodable, valid, on-time, handled messages are delivered, once each, in order |
| InboundRuns.InboundBalances | src/interconnect/interconnect_bridge.cpp:1472-1629 | received = undecodable + invalid + passed; passed = present + missing traces = expired + unrouted + handler errors + delivered = each rx map's total; present = hits + misses = linked; expired = each expired map's total |
| InboundRuns.CountersAreExact | src/interconnect/interconnect_bridge.cpp:1472-1629 | over every run each counter is the number of receptions that met its fate, told from the reception alone |
| InboundRuns.TalliesAreExact | src/interconnect/interconnect_bridge.cpp:1532-1537 | over every run each entry of the rx and expired maps is the number of such messages |
| InboundRuns.TraceIndexIsWindow | src/interconnect/interconnect_bridge.hpp:277-280 | after any run map and deque hold the same ids: the last 1024 accepted ones, each once, in order of insertion |
| InboundRuns.TraceTimesAreLatest | src/interconnect/interconnect_bridge.cpp:1550-1568 | each indexed id carries the time of its latest presentation |
| InboundRuns.HitsAndMissesCount | src/interconnect/interconnect_bridge.cpp:1550-1568 | misses count the accepted ids, hits the other presentations |
| EndToEnd.ConfiguredModeIff | src/interconnect/protocol_manager.cpp:8-29 | the configured mode is used iff the policy is unlocked and the canary selects the message; otherwise compact |
| EndToEnd.PublishedThenReceived | src/interconnect/interconnect_bridge.cpp:1508-1529 | a valid published message with schema version at least 1 passes the inbound gate, in any receiver mode, iff it was sent in legacy mode; else it counts as invalid, and schema 0 as undecodable |
| EndToEnd.StaleReceiverModeIsHarmless | src/interconnect/interconnect_bridge.cpp:1507-1508 | the receiver's mode, which a reload leaves stale, does not affect messages of a bridge |
| EndToEnd.SentIsDelivered | src/interconnect/interconnect_bridge.cpp:1472-1629 | over any conversation the handlers see exactly the legacy-mode, on-time, routable messages in the order sent |
| EndToEnd.LockedBridgeDeliversNothing | src/interconnect/protocol_manager.cpp:10-12 | under a locked policy every message is counted invalid and none is delivered |
| FullPath.TakenOnce | src/interconnect/interconnect_bridge.cpp:1189-1305 | a publish that returns Ok put its message on exactly one transport, any other on none |
| FullPath.FailoverComesHome | src/interconnect/interconnect_bridge.cpp:1260-1305 | the opposite transport has the message iff the call counts as a failover hit |
| FullPath.LogsHoldTx | src/interconnect/interconnect_bridge.cpp:1189-1305 | over every run the transports together accepted as many messages as tx counts |
| FullPath.PublishedIsDelivered | src/interconnect/interconnect_bridge.cpp:1472-1629 | for every run of publishes and every order-keeping, possibly lossy transport, the handlers see exactly the accepted, arrived, legacy-mode, on-time, routable messages, once each, in order |
| FullPath.HeardAtMostSent | src/interconnect/interconnect_bridge.cpp:1472-1505 | both receivers together receive at most tx messages, all of them iff no transport lost one |
| BridgeConfig.NormalizePolicyDefaults | src/interconnect/policy_manager.cpp:9-32 | the four ordered updates amount to one choice per field |
| BridgeConfig.NormalizeIsIdempotent | src/interconnect/policy_manager.cpp:9-32 | normalizing twice changes nothing more |
| BridgeConfig.NormalizePreservesIff | src/interconnect/policy_manager.cpp:9-32 | normalization changes no hashed field iff the configuration is settled |
| BridgeConfig.NormalizedFields | src/interconnect/policy_manager.cpp:9-32 | what normalization makes of each field, and that nothing else changes |
| BridgeConfig.PolicyFieldsHashed | src/interconnect/interconnect_bridge.cpp:84-91 | the signature covers every policy field but the sleep settings and the lock |
| BridgeConfig.RuleFieldsHashed | src/interconnect/interconnect_bridge.cpp:93-112 | and every field of a rule |
| BridgeConfig.SamplingMeans | src/interconnect/interconnect_bridge.cpp:184-194 | the rate is capped at 100 and zero intervals stand for their defaults |
| BridgeConfig.DefaultTemplatesMean | src/interconnect/interconnect_bridge.cpp:672-696 | which policy each channel gets from a table without rules |
| BridgeConfig.TemplatesOnlyFillAGap | src/interconnect/interconnect_bridge.cpp:672-675 | a table with templates of its own is left alone |
| BridgeConfig.SignatureIgnoresLayers | src/interconnect/interconnect_bridge.cpp:83-124 | two tables look the same to every signature iff default policies and the rules run together, layers ignored, agree in the hashed fields |
| ConfigReload.InterconnectBridge.ReloadConfigIfChanged | src/interconnect/interconnect_bridge.cpp:903-1077 | the whole new state and result of one reload, install-then-check included |
| ConfigReload.InterconnectBridge.Start | src/interconnect/interconnect_bridge.cpp:161-252 | the same for a direct start with its canary rollback and launch failures |
| ConfigReload.InterconnectBridge.StartFromProvider | src/interconnect/interconnect_bridge.cpp:138-158 | the same for a start from a provider |
| ReloadRuns.FailedReloadIsAtomic | src/interconnect/interconnect_bridge.cpp:903-1077 | a reload that is not Ok keeps configuration, indexes, version, source, signatures and last known good; the sampling fields and the emptied cache are the exact exceptions |
| ReloadRuns.ReloadCommitsIff | src/interconnect/interconnect_bridge.cpp:903-1077 | Ok iff nothing is new or all guards pass, and then the indexed candidate is in force and known good |
| ReloadMeaning.ReloadGuards | src/interconnect/interconnect_bridge.cpp:903-1077 | every guard in order on the fields of the configuration in force, the candidate and the signatures, with its code, reason, failure and rollback; and what a commit puts in force |
| ReloadMeaning.StartMeans | src/interconnect/interconnect_bridge.cpp:161-252 | a start on its own fields: what is recorded and installed, when the canary refuses, when the bridge runs, and the first failure as result |
| ReloadMeaning.ProviderStartMeans | src/interconnect/interconnect_bridge.cpp:138-158 | a start from a provider: a failed load changes nothing, otherwise the raw configuration is recorded first |
| ReloadRuns.RunningIsIndexed | src/interconnect/interconnect_bridge.cpp:138-252 | after any run of starts, stops, reloads and resolutions a running bridge's indexes are those of a rebuild |
| ReloadRuns.PoliciesFollowTable | src/interconnect/interconnect_bridge.cpp:1312-1362 | in every reachable state whose table never tells envelopes of one key apart each answer is that table's |
| ReloadRuns.FailedReloadKeepsPolicyIff | src/interconnect/interconnect_bridge.cpp:903-1077 | for every bridge and message: a rejected reload keeps its policy iff the candidate was not put in place, its key is not cached, or the cached entry is the table's answer |
| ReloadRuns.FailedReloadKeepsPolicies | src/interconnect/interconnect_bridge.cpp:903-1077 | hence with such a table it changes the policy of no message in any reachable state |
| ReloadRuns.LedgerBalances | src/interconnect/interconnect_bridge.cpp:195-212 | over all runs success + fail + no-op = reload calls + canary rejections, and fail = rollback + provider failures |
| ReloadRuns.SignatureFreezes | src/interconnect/interconnect_bridge.cpp:1042-1076 | once non-zero, the known good signature survives every sequence of reloads, and whatever they put in force carries it |
| ReloadLimits.SamePoliciesReloadIff | src/interconnect/interconnect_bridge.cpp:138-158 | after a provider start, unchanged policies reload iff normalization keeps their signature, the recorded one is zero, or the first version was zero |
| ReloadLimits.SettledReloads | src/interconnect/interconnect_bridge.cpp:965-968 | with a distinguishing signature: iff the configuration is settled |
| ReloadLimits.ReloadTestExpectationFails | tests/interconnect/interconnect_config_provider_test.cpp:71-104 | the test's second load is refused by such a signature |
| ReloadLimits.RollbackTestExpectationFails | tests/interconnect/interconnect_config_reload_test.cpp:58-88 | the unusable candidate of the rollback test is refused for its signature, not as invalid |
| ReloadLimits.DirectStartReloads | src/interconnect/interconnect_bridge.cpp:177-183 | after a direct start unchanged policies always reload |
| ReloadLimits.LayersEscapeTheSignature | src/interconnect/interconnect_bridge.cpp:83-124 | two tables no signature tells apart that give a message different policies |
| ReloadLimits.LockCanBeLifted | src/interconnect/interconnect_bridge.cpp:914-930 | reloading the same configuration without its lock flags passes lock and signature checks |
| ReloadLimits.StartWhileRunningMislabels | src/interconnect/interconnect_bridge.cpp:138-164 | a provider start of a running bridge keeps the old configuration under the new version and replaces the known good one |
| ReloadLimits.CanaryRestoresIff | src/interconnect/interconnect_bridge.cpp:195-212 | a canary rejection restores an earlier configuration iff one with a non-zero version was recorded |
| ReloadLimits.CanaryRestoresTheRefused | src/interconnect/interconnect_bridge.cpp:138-158 | after a provider start it restores the rejected configuration itself |
| ReloadLimits.RejectedReloadChangesPolicy | src/interconnect/interconnect_bridge.cpp:1021-1033 | with a rule testing the source, a rejected reload changes the next message's policy |

## Left out

- Sockets, POSIX queues, process supervision, logging, metrics export, diagnostics files, audit strings and lint texts: input/output and formatting.
- Counters other than those named above (sampled, diagnostic and health counters), and `RefreshAggregatedMetrics`: they only copy or sample.
- Integer widths of counters, retry counts and backoff times are not modelled (they are unbounded here); the breaker's streaks and the flow-slot counter do wrap at 32 bits.
- FullPath.PublishedIsDelivered: a transport may lose messages but is taken to keep order and not to repeat or change them; when a message is discarded relative to other sends is not modelled.
- Text is a sequence of characters where the source counts bytes.
- ProtocolAdapter.ParseFrameParts: a length token beyond the machine's range makes the source's `std::stoul` throw inside a noexcept function; here it is simply a wrong length.
- ThreadPool.PoolAccounts: the pool is a state machine on values, one step per mutex section, notification or task; worker creation, its failure, real-time priorities and restarting a stopped pool are not modelled.
- FlowSlots.LimitRespected: the limiter is a state machine on values, one step per atomic operation, for fewer than 2^32 publishers; retuning is confined to moments when it is harmless, and FlowSlots.TuneInFlightUnderflows shows why.
- PolicyCache.PolicyResolver.ResolvePolicy: lookup, resolution and store are one step; two threads missing the same key at once are not interleaved, and references into the cache are values.
- ConfigReload.InterconnectBridge.ReloadConfigIfChanged: one atomic step, though the source does not lock out the worker threads; the timestamp and the audit text are dropped.
- The policy signature is an arbitrary function of the fields the source hashes; its collisions are not studied.
- Publish.PublishPath.Publish: encoding result, resolved policy, flow slot, authenticator and canary verdict are inputs of a call; message priority is not modelled.
- Inbound.InboundLoop.ProcessInbound: sleeping after a timeout is dropped; the invalid-envelope and transport-error counters are kept apart from the publisher's, although the source shares them; two loops on the same counters are one run of their iterations in the order they happen.
- Configuration fields that neither reload nor mode resolution reads (idempotency topics, snapshot paths, transport parameters, real-time settings) are not part of `BridgeConfig.Config`.
- The source defines `PopulateDefaultTemplateRules` twice; the model has the first definition (lines 672-696).
- `PolicyManager::Resolve`, the effective-view export and `SelfCheckProtocolCapability`: placeholders, formatting, or consequences of `ProtocolAdapter.AllPairsInteroperate`.
