# Godwit's stateful engines, verified

Godwit is a proxy in front of language model providers. Most of it moves data between
interfaces; this project models the small engines inside it that keep state or run
protocols, and proves what holds of them over every input, every run or every interleaving.

| file | engine |
|---|---|
| `TokenBucket.dfy`, `RateLimiter.dfy`, `Limiters.dfy` | the token bucket, the two-pass request limiter over four buckets, the login limiter |
| `PromptCache.dfy` | the prompt cache with expiry and least-recently-used eviction |
| `CircuitBreaker.dfy`, `HalfOpenGate.dfy` | the circuit breaker, call by call, and the race of threads through its half-open gate |
| `JsonRpc.dfy`, `McpProtocol.dfy`, `ToolNames.dfy` | MCP: message codec and frame reader, client and server, tool names |
| `EditLogs.dfy`, `ReplayOrder.dfy`, `PiiMasking.dfy` | logs of edits in place, exactly when their replay restores the text, masking of personal data |
| `ToolCallBuffer.dfy`, `AgenticLoop.dfy` | reassembly of streamed tool calls, the agentic loop |
| `Resilience.dfy`, `LoadBalancer.dfy` | retry and fallback, choice among models |
| `Wrappers.dfy`, `Sequences.dfy`, `Words.dfy` | optional values and results; laws of concatenation; machine words |

Where the program changes fields in place, the model is a class whose methods are proved
against functions on values; the theorems are about those functions. Clocks are parameters:
every operation takes the reading it would make. Providers, tools, regular expressions and
the JSON library are function values with stated laws.

## How the main results fit together

**Rate limiting.** Refilling twice is refilling once (`RefillComposes`). From that follow
that pass 1 leaves every bucket looking the same (`VerifyKeepsView`), that the decision is
the slowest wait judged before the call (`DecisionIsSlowestWait`), that an admitted call
debits each bucket exactly once and a rejected one nothing (`AllOrNothing`), that a rejected
call changes no later decision (`RejectionIsInvisible`), and that the reported wait is both
enough and minimal. A potential argument bounds the tokens taken from a bucket in any window
of any interleaving of single checks (`WindowBound`), and the requests or tokens admitted by
calls that do not interleave (`AdmissionBound`). The limits of all-or-nothing are theorems
too. In any state that other calls left since pass 1, pass 2 debits a bucket iff it then has
the tokens (`CommitDebitsOnce`), so of two calls that both passed their checks, whenever they
made them, the second is debited iff what the first left, refilled since, has its amount
(`InterleavedCallsShareTokens`). An id that is both key and organization is debited twice iff
both limits are set and twice the amount is there, and exactly once otherwise (`SharedIdentityDebitsTwice`), against the comment at
rate_limit.rs:121-123.

**Prompt cache.** Map and queue with tombstones behave as an eager list of live items
(`RunCache`). On the list, over every run: it is ordered by last use, so eviction removes
exactly the least recently used key; it holds exactly the last value inserted and not
dropped since; and its size is bounded, a maximum of zero still admitting one entry.

**Circuit breaker.** Closed iff too few failures since the last success that counted; a
threshold of zero acts as one. Exactly when a call is admitted is said of the recorded events
alone (`AdmittedIff`). The open branch of `can_execute` reads the clock again and has
no gate, and exactly that window lets calls through uncounted (`UncountedAdmission`). In the
race, exactly min(callers, free slots) threads are admitted in any interleaving of one epoch;
a reset keeps the accounting iff nobody is between add and subtract (`ResetIsCleanIff`). If b
threads are, then in every later interleaving a caller is refused a free slot iff fewer than b
threads were granted or are between again, and at most b callers too many get in (`AfterReset`).

**Framing.** The reader's results do not depend on chunking, and there is one per newline:
the branch that skips blank lines never fires, against the doc comment at jsonrpc.rs:100-101,
because trimming keeps the newline. A message survives the codec iff no optional member is an
explicit null.

**Correlation.** Over every interleaving of client, peer, unrelated traffic and malformed
lines, a request given up at a malformed line leaves its response unread, and every later
request reads an answer that much too old (`EveryRunCorrelates`). A result is then refused by
its id iff ids are checked; an error is silently reported as the outcome of the wrong request
(`LateErrorIsMisattributed`). Without malformed lines every request gets its own answer.

**Masking.** Undone backwards, the log always restores the text. `unmask` replays it
forwards, which restores the text whenever the recorded starts increase, in particular for
one pattern. For placeholders that start with another character than what they hide, and
matches that do not touch earlier placeholders, and as long as no edit that lengthened the text
is overtaken by a later one, replay restores the text *iff* only edits that kept the length of
the text are out of order (`ReplayRestoresIff`); without that last condition it is false
(`UnmeasuredCanCancelOut`). For patterns shaped like the built-in ones, whose matches can never
touch a placeholder, this reads: as long as no address shorter than its placeholder stands
right of a phone number, and so on every text where masking does not underflow, the text comes
back iff the recorded starts increase (`BuiltInRoundTripIff`, `NoUnderflowIsMeasured`). An SSN to the right of an e-mail address of any length is
never restored, nor is an address of any length to the right of a phone number.

**Conversation.** In a run of the agentic loop every request is a well-formed conversation
iff every completion before the last keeps all its tool calls in its first choice
(`EveryRequestIsPairedIff`).

## Model

| member | source | states |
|---|---|---|
| TokenBuckets.RetryAfter | crates/godwit-api/src/rate_limit.rs:45-59 | no wait iff unlimited or enough tokens; otherwise at least one second |
| TokenBuckets.RefillComposes | crates/godwit-api/src/rate_limit.rs:29-37 | refilling at an intermediate time and again later equals refilling once |
| TokenBuckets.RetryAfterIsTight | crates/godwit-api/src/rate_limit.rs:45-59 | waiting the reported seconds suffices if the amount fits; any wait one second shorter does not |
| TokenBuckets.RetryAfterIsLeast | crates/godwit-api/src/rate_limit.rs:45-59 | the reported wait is the least whole number of seconds in which what is missing flows in, even above the capacity |
| TokenBuckets.SyncKeepsWhatFits | crates/godwit-api/src/rate_limit.rs:96-99 | adopting a changed limit adds no tokens and keeps the refill time: the bucket keeps what fits |
| TokenBuckets.EffectiveComposes | crates/godwit-api/src/rate_limit.rs:95-101 | creating, adapting and refilling a bucket now and refilling it later is the same as doing it all later |
| TokenBuckets.CheckKeepsBounds | crates/godwit-api/src/rate_limit.rs:84-106 | each check keeps 0 <= tokens <= capacity in all buckets, across limit changes |
| TokenBuckets.RunKeepsBounds | crates/godwit-api/src/rate_limit.rs:84-106 | the bounds hold after every interleaving of checks |
| TokenBuckets.Potential | crates/godwit-api/src/rate_limit.rs:29-106 | tokens taken plus tokens left never exceed tokens at the start plus the refill of the time between |
| TokenBuckets.WindowBound | crates/godwit-api/src/rate_limit.rs:29-106 | in any interleaved run and any window with limit C on a key, at most C + C*T/60 tokens are taken from it |
| RateLimiting.VerifyKeepsView | crates/godwit-api/src/rate_limit.rs:131-142 | pass 1 changes no bucket as seen at any later time |
| RateLimiting.VerifyReportsSlowest | crates/godwit-api/src/rate_limit.rs:135-142 | pass 1 reports the largest wait, each judged on the state before the call |
| RateLimiting.DecisionIsSlowestWait | crates/godwit-api/src/rate_limit.rs:131-153 | admitted iff no limited bucket lacks tokens; otherwise the reported wait is the maximum of the waits |
| RateLimiting.CommitDebitsOnce | crates/godwit-api/src/rate_limit.rs:148-151 | in any state left by other calls, pass 2 over distinct buckets debits each exactly once iff it then has the tokens, and not at all otherwise |
| RateLimiting.AllOrNothing | crates/godwit-api/src/rate_limit.rs:108-154 | admitted: every limited bucket loses its amount once and stays non-negative; rejected: none loses anything; no other bucket is touched |
| RateLimiting.CallPotential | crates/godwit-api/src/rate_limit.rs:108-154 | what an admitted call spends is exactly what the bucket loses |
| RateLimiting.AdmissionBound | crates/godwit-api/src/rate_limit.rs:79-154 | after any history, sequential calls under limit C are admitted for at most C + C*T/60 requests (or estimated tokens) |
| RateLimiting.RejectionIsInvisible | crates/godwit-api/src/rate_limit.rs:131-146 | with fixed limits, all decisions of every later run are as if the rejected call had never been made |
| RateLimiting.RetryAfterIsSound | crates/godwit-api/src/rate_limit.rs:131-146 | a rejected call whose amounts fit is admitted after any idle wait of at least the reported one |
| RateLimiting.RetryAfterIsMinimal | crates/godwit-api/src/rate_limit.rs:131-146 | after any idle wait at least one second shorter it is rejected again |
| RateLimiting.OversizedIsNeverAdmitted | crates/godwit-api/src/rate_limit.rs:131-146 | a call asking a bucket for more than its limit is rejected in every state and with any other limits |
| RateLimiting.SharedIdentityDebitsTwice | crates/godwit-api/src/rate_limit.rs:121-151 | if key and organization are one id, with any limits and in any state, an admitted call takes its requests or tokens twice iff both limits are set and twice the amount is there under the smaller one, and exactly once otherwise |
| RateLimiting.InterleavedCallsShareTokens | crates/godwit-api/src/rate_limit.rs:131-153 | of any two calls that both pass their checks before either debits, at any times, the first takes its amount from a shared bucket and the second takes its own iff what is left, refilled until then, has it; otherwise its failed debit is discarded |
| Limiters.TokenBucket.constructor | crates/godwit-api/src/rate_limit.rs:21-27 | a new bucket is full |
| Limiters.TokenBucket.Refill | crates/godwit-api/src/rate_limit.rs:29-37 | the fields change as the bucket value is refilled |
| Limiters.TokenBucket.DeficitRetryAfter | crates/godwit-api/src/rate_limit.rs:45-59 | refills in place and reports the wait of the refilled bucket |
| Limiters.TokenBucket.Debit | crates/godwit-api/src/rate_limit.rs:63-65 | takes exactly the amount |
| Limiters.BucketTable.CheckBucket | crates/godwit-api/src/rate_limit.rs:84-106 | the table of mutable buckets changes exactly as the table of values, with the same result |
| Limiters.RateLimiter.CheckAndConsume | crates/godwit-api/src/rate_limit.rs:108-154 | the two loops compute the two passes on the value of the limiter |
| Limiters.LoginLimiter.AttemptAllowed | crates/godwit-api/src/login_rate_limit.rs:18-31 | an attempt is a check of one token against the capacity; capacity zero allows all and changes nothing |
| Limiters.LoginWindowBound | crates/godwit-api/src/login_rate_limit.rs:18-31 | debited attempts of one address in any window are at most capacity + capacity*T/60 |
| PromptCaching.PromptCache.InsertWithTtl | crates/godwit-providers/src/prompt_cache.rs:58-74 | insertion acts on the list of live items: make room, drop the old item, append |
| PromptCaching.PromptCache.Get | crates/godwit-providers/src/prompt_cache.rs:78-93 | get moves a live item to the back, or drops an expired one, as on the list |
| PromptCaching.PromptCache.ContainsKey | crates/godwit-providers/src/prompt_cache.rs:96-109 | reports a live key without moving it, and drops an expired one |
| PromptCaching.PromptCache.Remove | crates/godwit-providers/src/prompt_cache.rs:112-114 | removes the item from the list although the queue keeps a tombstone |
| PromptCaching.PromptCache.Clear | crates/godwit-providers/src/prompt_cache.rs:127-131 | empties the list |
| PromptCaching.PromptCache.EvictExpired | crates/godwit-providers/src/prompt_cache.rs:134-151 | removes exactly the expired items, in order-preserving fashion, and counts them |
| PromptCaching.PromptCache.EvictLru | crates/godwit-providers/src/prompt_cache.rs:154-163 | terminates having removed exactly one entry, the head of the list of live items |
| PromptCaching.PromptCache.UpdateLruAccess | crates/godwit-providers/src/prompt_cache.rs:166-175 | the key is once in the queue, at the back; all others keep their order |
| PromptCaching.PromptCache.Len | crates/godwit-providers/src/prompt_cache.rs:117-119 | the map has as many entries as the list |
| PromptCaching.RunCache | crates/godwit-providers/src/prompt_cache.rs:58-175 | any run of operations outputs what the eager list outputs and ends in its state |
| PromptCaching.RunReachesState | crates/godwit-providers/src/prompt_cache.rs:58-175 | ties such runs to the states of the history theorems |
| PromptCaching.OrderedByLastUse | crates/godwit-providers/src/prompt_cache.rs:153-175 | after every run the items are strictly ordered by their last insertion or successful get |
| PromptCaching.EvictsLeastRecentlyUsed | crates/godwit-providers/src/prompt_cache.rs:61-64 | a full cache loses exactly the key whose last use is oldest |
| PromptCaching.SizeBound | crates/godwit-providers/src/prompt_cache.rs:61-64 | never more than max_size entries (one, if max_size is zero) |
| PromptCaching.HoldsLastInserted | crates/godwit-providers/src/prompt_cache.rs:58-175 | a key holds exactly the last entry inserted and not evicted, removed, cleared or found expired since |
| PromptCaching.GetReturnsLastInserted | crates/godwit-providers/src/prompt_cache.rs:76-93 | get returns that value iff it is not expired |
| PromptCaching.AnswersFollowHistory | crates/godwit-providers/src/prompt_cache.rs:95-114 | over every run, a key is reported present iff its last insertion was not dropped and is not expired, and a removal hands out that value, expired or not |
| PromptCaching.EvictionCountsExpired | crates/godwit-providers/src/prompt_cache.rs:133-151 | evicting reports the number of keys whose last insertion was not dropped and is expired |
| CircuitBreaking.ClosedIffFewFailures | crates/godwit-api/src/circuit_breaker.rs:61-94 | closed iff fewer than max(threshold, 1) failures since the last success recorded while not open |
| CircuitBreaking.GateInvariant | crates/godwit-api/src/circuit_breaker.rs:37-109 | the gate counter is zero outside half-open, counts the calls let through inside, and stays within its maximum; half-open means the timeout has passed since the last failure |
| CircuitBreaking.AdmittedIff | crates/godwit-api/src/circuit_breaker.rs:37-109 | over every run, a call is admitted iff few enough failures were recorded since the last success that counted, or the timeout since the last failure has passed at the first clock reading and a half-open slot is free, or it has passed only at the second |
| CircuitBreaking.SuccessesAreCounted | crates/godwit-api/src/circuit_breaker.rs:61-75 | every success is counted in every state |
| CircuitBreaking.AdmittedOnlyAfterTimeout | crates/godwit-api/src/circuit_breaker.rs:37-59 | every admission while not closed is at least the timeout after the last failure |
| CircuitBreaking.OpenBranchBypassesGate | crates/godwit-api/src/circuit_breaker.rs:41-48 | a call is admitted with no half-open slot allowed at all |
| CircuitBreaking.UncountedAdmission | crates/godwit-api/src/circuit_breaker.rs:37-59 | outside closed, a call passes uncounted iff the timeout expires between the two clock readings |
| CircuitBreaking.CircuitBreaker.State | crates/godwit-api/src/circuit_breaker.rs:96-109 | looking at an open breaker after the timeout makes it half-open |
| CircuitBreaking.CircuitBreaker.CanExecute | crates/godwit-api/src/circuit_breaker.rs:37-59 | the fields change and the answer comes as in the value model, including add and take-back |
| CircuitBreaking.CircuitBreaker.RecordSuccess | crates/godwit-api/src/circuit_breaker.rs:61-75 | all fields after a success, by state |
| CircuitBreaking.CircuitBreaker.RecordFailure | crates/godwit-api/src/circuit_breaker.rs:77-94 | all fields after a failure, by state |
| HalfOpenGate.RefusedOnlyWhenFull | crates/godwit-api/src/circuit_breaker.rs:49-57 | in every interleaving of an epoch the counter is slots taken plus threads between add and subtract, and nobody is turned away unless all slots are granted |
| HalfOpenGate.ExactAdmission | crates/godwit-api/src/circuit_breaker.rs:49-57 | when all have their answer, exactly min(callers, free slots) were admitted |
| HalfOpenGate.ResetDrift | crates/godwit-api/src/circuit_breaker.rs:61-94 | after a stored zero the counter is short by the threads then between add and subtract, modulo the word |
| HalfOpenGate.ResetIsCleanIff | crates/godwit-api/src/circuit_breaker.rs:61-94 | the accounting survives a reset iff there were none |
| HalfOpenGate.AfterReset | crates/godwit-api/src/circuit_breaker.rs:49-94 | with b threads between add and subtract at a stored zero, in every later interleaving a caller that finds a free slot is sent back iff fewer than b threads were granted or are between again, and at most b callers too many are let in |
| HalfOpenGate.ResetAdmitsTooMany | crates/godwit-api/src/circuit_breaker.rs:49-94 | that bound is reached |
| HalfOpenGate.WrapRefusesFreeSlot | crates/godwit-api/src/circuit_breaker.rs:49-68 | an instance: a schedule that leaves the counter at the largest word and refuses a caller with every slot free |
| JsonRpc.CodecRoundTripIff | crates/godwit-mcp/src/jsonrpc.rs:28-80 | a message decodes to itself iff no optional member is an explicit null, and otherwise to the same message without that member |
| JsonRpc.DecodeIff | crates/godwit-mcp/src/jsonrpc.rs:28-80 | for any object, exactly which members make which message, in the order request, result, error, notification |
| JsonRpc.OtherMembersDoNotMatter | crates/godwit-mcp/src/jsonrpc.rs:28-80 | no other member of the object changes what it decodes to |
| JsonRpc.EncodedMembers | crates/godwit-mcp/src/jsonrpc.rs:28-80 | exactly the members of the variant are written, optional ones only if given |
| JsonRpc.FromFrameIff | crates/godwit-mcp/src/jsonrpc.rs:90-97 | a line is a message iff it parses to an object that decodes to it, and is told to be no object iff it parses to something else |
| JsonRpc.TrimStrips | crates/godwit-mcp/src/jsonrpc.rs:145-155 | trimming cuts the blanks off both ends, all of them and nothing else |
| JsonRpc.ForeignIdReadsAsNotification | crates/godwit-mcp/src/jsonrpc.rs:74-80 | a request without a 64-bit integer id is read as a notification |
| JsonRpc.TrimBuf | crates/godwit-mcp/src/jsonrpc.rs:145-155 | the two index loops strip blanks, tabs and returns from both ends |
| JsonRpc.FirstNewline | crates/godwit-mcp/src/jsonrpc.rs:140-142 | the first newline, and none before it |
| JsonRpc.FrameReader.Push | crates/godwit-mcp/src/jsonrpc.rs:121-138 | the results are those of the complete lines of buffer and bytes; the rest stays buffered |
| JsonRpc.PushAll | crates/godwit-mcp/src/jsonrpc.rs:120-138 | any partition into chunks gives the results and leftover of one push |
| JsonRpc.LinesAreCutAtNewlines | crates/godwit-mcp/src/jsonrpc.rs:121-136 | the lines and the leftover are the stream, cut behind every newline and nowhere else |
| JsonRpc.OneFramePerNewline | crates/godwit-mcp/src/jsonrpc.rs:124-136 | exactly one result per newline, the k-th decoded from the k-th line trimmed, so the skip of empty lines never fires |
| JsonRpc.BlankLineIsAnError | crates/godwit-mcp/src/jsonrpc.rs:128-132 | a blank line yields a parse error |
| JsonRpc.FrameRoundTrip | crates/godwit-mcp/src/jsonrpc.rs:84-97 | a frame parses back to its message |
| JsonRpc.StreamRoundTrip | crates/godwit-mcp/src/jsonrpc.rs:82-138 | concatenated frames of any messages come back as those messages in order with nothing left over |
| McpProtocol.McpClient.AwaitResponse | crates/godwit-mcp/src/client.rs:232-260 | reads up to the first response, malformed line or close, and leaves the rest |
| McpProtocol.McpClient.SendRequest | crates/godwit-mcp/src/client.rs:224-277 | takes the next id (wrapping around, or failing before anything is sent if overflow is checked), writes one request with it, and ends with what the wait ends with |
| McpProtocol.McpClient.InitializeHandshake | crates/godwit-mcp/src/client.rs:130-175 | accepts a response with any id, and sends the notification only on success |
| McpProtocol.AwaitSkipsNoise | crates/godwit-mcp/src/client.rs:232-260 | whatever notifications and requests come first, the first response decides |
| McpProtocol.HandleRequest | crates/godwit-mcp/src/server.rs:119-176 | every request gets a response with its own id: the tool list, the tool's answer or error, the server's description iff a non-empty protocol version is named (error -32602 otherwise), error -32601 for any other method |
| McpProtocol.Serve | crates/godwit-mcp/src/server.rs:78-116 | the responses written are those to the requests before the first malformed line; the end is clean iff there is none |
| McpProtocol.RequestsAround | crates/godwit-mcp/src/server.rs:90-113 | the server sees exactly the requests before the first malformed line, in order |
| McpProtocol.ServerAnswersInOrder | crates/godwit-mcp/src/server.rs:99-107 | each request is answered by its own response, and response ids equal request ids, in order |
| McpProtocol.StepKeepsInvariant | crates/godwit-mcp/src/client.rs:224-261 | every step of client, peer or channel keeps at most one request open, and the responses under way exactly the answers not read, oldest first |
| McpProtocol.EveryRunCorrelates | crates/godwit-mcp/src/client.rs:224-277 | in every interleaving, malformed lines included: with `lost` requests given up at a malformed line before it, request i is given up itself or reads the answer to request i - lost; a result is refused with that id iff ids are checked and lost > 0, an error is reported as its own |
| McpProtocol.WellFormedRunsCorrelate | crates/godwit-mcp/src/client.rs:224-277 | without malformed lines the i-th request has id i and comes to the peer's answer to it; never UnexpectedResponseId |
| McpProtocol.ReadingCompletes | crates/godwit-mcp/src/client.rs:232-260 | once an answer is under way, reading what has arrived completes the request |
| McpProtocol.AwaitIsRun | crates/godwit-mcp/src/client.rs:232-260 | the wait of the client object is a run of the system: unless the stream closes, the request ends with its answer and leaves its rest |
| McpProtocol.LateErrorIsMisattributed | crates/godwit-mcp/src/client.rs:238-257 | from any quiet state, after one malformed line the error for the first request is reported for the second, which the peer has not answered |
| ToolNames.FindSeparator | crates/godwit-mcp/src/registry.rs:168-170 | the first separator, and none before it |
| ToolNames.SplitInvertsIff | crates/godwit-mcp/src/registry.rs:168-170 | splitting server__tool gives back both iff the server name has no "__" and does not end in "_" |
| ToolNames.NamesAreInjective | crates/godwit-mcp/src/tool.rs:30-39 | on such servers names are unique across servers |
| ToolNames.SplitsAgree | crates/godwit-mcp/src/tool.rs:43-48 | prefix-based and first-separator splitting agree |
| ToolNames.RouteIff | crates/godwit-mcp/src/registry.rs:132-147 | a name is routed to a server and tool iff it splits into them at its first separator, neither is empty and the server is known; exactly when the server is reported unknown and when the name is invalid |
| ToolNames.AdvertisedToolsRouteBack | crates/godwit-mcp/src/registry.rs:132-147 | every advertised tool is routed to its server |
| ToolNames.AmbiguousServersAreUnreachable | crates/godwit-mcp/src/registry.rs:132-147 | no tool of another server name is |
| PiiMasking.PassIsRedaction | crates/godwit-core/src/pii_masking.rs:28-40 | one in-place pass with a running offset equals redaction without offsets; its log is valid and runs left to right |
| PiiMasking.MaskLogIsValid | crates/godwit-core/src/pii_masking.rs:23-45 | the whole log leads from the text to the redacted text |
| EditLogs.BackwardsRestores | crates/godwit-core/src/pii_masking.rs:23-45 | undone from the last entry to the first, any log restores the text |
| EditLogs.ReplayRestoresIncreasing | crates/godwit-core/src/pii_masking.rs:47-64 | forward replay restores the text whenever the recorded starts run left to right |
| PiiMasking.SinglePatternRoundTrip | crates/godwit-core/src/pii_masking.rs:23-64 | one pattern always round-trips |
| ReplayOrder.LateReplayRestoresIff | crates/godwit-core/src/pii_masking.rs:47-64 | for telling edits that touch no earlier placeholder and a measured log (no lengthening edit is overtaken): a replay that looks some edits up further right restores the text iff it does so for none of them and only length-keeping edits are out of order |
| ReplayOrder.ReplayRestoresIff | crates/godwit-core/src/pii_masking.rs:47-64 | for telling edits that touch no earlier placeholder and a measured log, replay restores the text iff only length-keeping edits are out of order |
| ReplayOrder.UnmeasuredCanCancelOut | crates/godwit-core/src/pii_masking.rs:47-64 | without a measured log that is false: a log out of order whose displacements cancel out |
| ReplayOrder.MarkedIsDisjoint | crates/godwit-core/src/pii_masking.rs:28-40 | matches without brackets and with a character that no placeholder has never touch an earlier placeholder |
| PiiMasking.PatternHidesMatches | crates/godwit-core/src/pii_masking.rs:28-40 | the entries of a pass hide exactly the matches of the pattern, one by one |
| PiiMasking.MaskRoundTripIff | crates/godwit-core/src/pii_masking.rs:23-64 | the same for the log that masking writes with any telling patterns, if it is measured: e-mail addresses as short as or shorter than their placeholder included |
| PiiMasking.BuiltInRoundTripIff | crates/godwit-core/src/pii_masking.rs:23-90 | for patterns marked like the built-in ones, of which only one can match something no longer than its placeholder, on every text whose log is measured: unmasking restores the text iff the recorded starts increase |
| PiiMasking.NoUnderflowIsMeasured | crates/godwit-core/src/pii_masking.rs:37 | wherever the offset does not underflow, the log is measured |
| ReplayOrder.LateLeftmostIsLost | crates/godwit-core/src/pii_masking.rs:52-58 | when replay looks the leftmost edit up too far right, its placeholder stays |
| PiiMasking.SsnAfterEmailIsNotRestored | crates/godwit-core/src/pii_masking.rs:67-90 | masking with the SSN and then the e-mail pattern, for all surrounding text and any length of address, is not undone when the SSN stands right of the address |
| PiiMasking.EmailAfterPhoneIsNotRestored | crates/godwit-core/src/pii_masking.rs:67-90 | nor is masking with the e-mail and then the phone pattern when the address, of any length, stands right of the phone number |
| PiiMasking.ReplaceMatch | crates/godwit-core/src/pii_masking.rs:31-36 | one match is replaced at its start minus the shrinkage so far |
| PiiMasking.ReplaceMatches | crates/godwit-core/src/pii_masking.rs:29-40 | the loop over the matches writes the pass's log and text, or stops at the first underflow if checked |
| PiiMasking.PiiMasker.MaskPattern | crates/godwit-core/src/pii_masking.rs:27-41 | redacts one pattern; fails iff overflow is checked and a match is shorter than its placeholder |
| PiiMasking.PiiMasker.Mask | crates/godwit-core/src/pii_masking.rs:23-45 | redacts all patterns and stores the log under the request, or fails and stores nothing |
| PiiMasking.PiiMasker.Unmask | crates/godwit-core/src/pii_masking.rs:47-64 | replays and removes the log, fails on a range outside the text, and returns unknown requests' text unchanged |
| PiiMasking.RoundTrip | crates/godwit-core/src/pii_masking.rs:23-64 | through the masker: nothing is stored if a checked offset underflows; otherwise the log is gone afterwards, and the text is back when the starts increase, and exactly when the log is neutral where the order of the log decides |
| ToolCallStreaming.ToolCallBuffer.PushDelta | crates/godwit-api/src/proxy_streaming.rs:39-101 | the buffer holds the calls of the runs pushed so far; a delta that is not JSON changes nothing |
| ToolCallStreaming.ToolCallBuffer.FinishAll | crates/godwit-api/src/proxy_streaming.rs:121-127 | yields what earlier finishes left behind and one call per maximal run of equal index since, and empties the buffer |
| ToolCallStreaming.ToolCallBuffer.FinishCurrentTool | crates/godwit-api/src/proxy_streaming.rs:103-112 | hands out exactly the call of the last run and leaves the calls before it in the buffer |
| ToolCallStreaming.CallsAppend | crates/godwit-api/src/proxy_streaming.rs:67-100 | one more delta extends the last call or opens another |
| ToolCallStreaming.RunsAreMaximal | crates/godwit-api/src/proxy_streaming.rs:67-100 | the runs are the deltas cut at every change of index and nowhere else |
| ToolCallStreaming.ArgumentsAreConserved | crates/godwit-api/src/proxy_streaming.rs:39-127 | argument text joined over the calls is the text of all deltas in order |
| ToolCallStreaming.CallTakesLast | crates/godwit-api/src/proxy_streaming.rs:67-100 | a call has the last non-empty id and name of its run and the argument text of all its deltas |
| ToolCallStreaming.OneCallPerRun | crates/godwit-api/src/proxy_streaming.rs:67-127 | one call per run, in order |
| ToolCallStreaming.RunsAreGroupsIff | crates/godwit-api/src/proxy_streaming.rs:67-100 | the calls are a grouping by index iff no index is interrupted by another |
| AgenticLooping.ResolveToolCalls | crates/godwit-api/src/proxy.rs:417-454 | one tool message per call, in order, with its id and the result of its tool |
| AgenticLooping.Execute | crates/godwit-api/src/agentic_loop.rs:28-101 | at most max_iterations rounds, each continuing the conversation; success only with a valid completion without tool calls and the usage of all rounds; when each error is reported; the exit on an empty list of results is dead |
| AgenticLooping.UsageIsSum | crates/godwit-api/src/agentic_loop.rs:136-145 | prompt and completion usage are the sums over the rounds, missing only if never reported |
| AgenticLooping.ExchangeIsPairedIff | crates/godwit-api/src/agentic_loop.rs:66-85 | what a round adds answers each call exactly once iff all calls of the completion are in its first choice, which is no tool message |
| AgenticLooping.NextRequest | crates/godwit-api/src/agentic_loop.rs:76-85 | the next request is the last one, the first choice unchanged, and one tool message per call of any choice, in order, with its id and its tool's result |
| AgenticLooping.EveryRequestIsPairedIff | crates/godwit-api/src/agentic_loop.rs:76-85 | every request of a run extends the initial messages; every request answers each tool call exactly once, in order, with its id, iff every completion before the last is of that kind; and iff so, all calls of the run are answered with their own tool's result |
| AgenticLooping.SecondChoiceLeavesOrphans | crates/godwit-api/src/agentic_loop.rs:66-85 | any second choice with tool calls leaves answers without a call |
| Resilience.DecidingCall | crates/godwit-api/src/resilience.rs:27-41 | the first call that succeeds, fails hopelessly or is the last allowed |
| Resilience.WithRetry | crates/godwit-api/src/resilience.rs:21-53 | returns that call's outcome, makes no further call, waits the computed delays |
| Resilience.DelaysGrow | crates/godwit-api/src/resilience.rs:42-46 | delays never pass the cap, and never shrink up to any attempt whose doubled base does not overflow |
| Resilience.DelayIsIdealIff | crates/godwit-api/src/resilience.rs:42-45 | the wrapped delay is the one meant iff the doubled base does not overflow or what is left of it reaches the cap |
| Resilience.DefaultDelays | crates/godwit-api/src/resilience.rs:10-19 | the default policy waits half a second, then a second |
| Resilience.DelaysVanish | crates/godwit-api/src/resilience.rs:42-45 | from the 64th repetition on there is no delay at all |
| Resilience.SucceedsIff | crates/godwit-api/src/fallback.rs:146-162 | an attempt succeeds iff the model resolves, some call within the limit succeeds after calls that all failed in a way worth retrying, and its answer passes the check |
| Resilience.FailsIff | crates/godwit-api/src/fallback.rs:146-162 | exactly which error it fails with otherwise, and how many calls it makes |
| Resilience.Attempt | crates/godwit-api/src/fallback.rs:146-162 | one attempt: resolution, retried call, check of the answer |
| Resilience.CallWithFallback | crates/godwit-api/src/fallback.rs:72-127 | the first model to succeed answers, after errors worth falling back from; attempts, trigger flag and reported error are exact |
| Resilience.CallsAreBounded | crates/godwit-api/src/fallback.rs:85-121 | at most chain length times (max_retries + 1) upstream calls |
| Resilience.ContainsIff | crates/godwit-api/src/fallback.rs:168 | a text contains a part iff it is that part between two others |
| Resilience.RetrySetsDiffer | crates/godwit-api/src/fallback.rs:164-171 | for every policy and error, exactly which are retried without falling back, which fall back without a retry, and which do both |
| Resilience.DefaultRetrySetsDiffer | crates/godwit-api/src/fallback.rs:164-171 | by default only transport failures are retried without falling back; only timeouts and 5xx other than 502, 503, 504 fall back without a retry |
| LoadBalancing.RoundRobinIsFair | crates/godwit-api/src/load_balancer.rs:66-70 | in m selections over n models each index is chosen floor(m/n) or ceil(m/n) times while the counter does not wrap |
| LoadBalancing.WrapKeepsCycleIff | crates/godwit-api/src/load_balancer.rs:66-70 | at the wrap the cycle goes on iff n divides the word size |
| LoadBalancing.LeastBusy | crates/godwit-api/src/load_balancer.rs:71-83 | returns the lowest index of a minimum |
| LoadBalancing.LeastBusyBalances | crates/godwit-api/src/load_balancer.rs:71-83 | routing by it without completions keeps loads within one of each other |
| LoadBalancing.EwmaStaysWithinSamples | crates/godwit-api/src/load_balancer.rs:25-35 | the average stays between the smallest and largest sample |
| LoadBalancing.EwmaMovesOneFifth | crates/godwit-api/src/load_balancer.rs:25-35 | each sample takes the average one fifth of the way towards it, and sets one that is not set |
| LoadBalancing.RunRoundRobin | crates/godwit-api/src/load_balancer.rs:56-70 | any run of selections by the balancer chooses each index as often as its counter says, and fairly while it does not wrap |
| LoadBalancing.RunLeastBusy | crates/godwit-api/src/load_balancer.rs:71-104 | any run of selections by the balancer, each followed by a guard, keeps balanced loads within one of each other even if a model is listed twice, and over different models routes by the live guards |
| LoadBalancing.LoadBalancer.SelectRoundRobin | crates/godwit-api/src/load_balancer.rs:56-70 | counter modulo length, counter advanced with wrap-around, nothing else changed |
| LoadBalancing.LoadBalancer.SelectLeastBusy | crates/godwit-api/src/load_balancer.rs:71-83 | the first model with the fewest live guards |
| LoadBalancing.LoadBalancer.IncrementInFlight | crates/godwit-api/src/load_balancer.rs:100-104 | in every state in_flight equals the live guards of the model |
| LoadBalancing.LoadBalancer.Drop | crates/godwit-api/src/load_balancer.rs:116-120 | dropping a live guard keeps that and never underflows |

## Left out

- Floating-point rounding in buckets and averages: both are over the reals.
- RateLimiting.AllOrNothing: one clock reading per call, and calls that do not interleave; single checks are covered in any interleaving, and pass 2 in any state.
- JsonRpc.Lawful: the JSON library is not modelled; frames rely on it being invertible, newline-free, tolerant of trailing white space and rejecting blank text. That structs may also be read from arrays is not modelled.
- The `jsonrpc` member of the JSON-RPC 2.0 Specification is not emitted by the program and plays no part.
- McpProtocol.HandleRequest: what the `tools/call` handler asks of the gateway is a parameter.
- McpProtocol.EveryRunCorrelates: runs stop asking at the largest 64-bit id, and the peer answers each request once with its id.
- Interleavings inside the prompt cache: its two locks are taken in different orders, so operations are atomic steps here. A bound on the queue's length does not exist in the code.
- CircuitBreaking.GateInvariant: counters of failures and successes do not wrap; the gate's counter does, in HalfOpenGate.
- PiiMasking.PiiMasker.Mask: text is single-byte characters, so character boundaries do not arise; without overflow checks the offset is computed with a sign, which is what wrap-around amounts to.
- Unmasking at the guardrails level: it replays logs on other text, and no round trip holds there.
- The event stream around the tool call buffer.
- PiiMasking.MaskRoundTripIff: logs in which a match shorter than its placeholder is overtaken by a later edit are decided only for two matches (`EmailAfterPhoneIsNotRestored`); for any patterns the equivalence fails there (`UnmeasuredCanCancelOut`), for the built-in ones it is open. In builds that check overflow such logs do not exist.
- PiiMasking.BuiltInRoundTripIff: the same logs.
- RateLimiting.InterleavedCallsShareTokens: the two calls set the same limit on the bucket they share.
- HalfOpenGate.AfterReset: threads and slots together fit in a machine word.
- AgenticLooping.ResolveToolCalls: which backend runs a tool is a parameter.
- Resilience.CallWithFallback: the chain is a parameter; the program builds it from the primary model and the configured fallbacks.
- AgenticLooping.UsageIsSum: overflow of 32-bit token counts is not modelled.
- Resilience.DelaysGrow: in builds that check overflow the doubling panics instead of wrapping around, which is not modelled. `max_attempts` of the fallback configuration is not enforced by the code.
- Selection by latency, which is the same minimum search over averages.
- Provider adapters, HTTP handlers, storage, mail, metrics, webhooks, user interfaces, cryptography and sign-on: plumbing, or thin layers over libraries that are not part of this model.
- Batch aggregation, access control predicates, token estimators and stream translators: they would only add easy members.
