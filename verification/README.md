# The parser wire format, the HTTP resilience stack and the shared cache

A Dafny model of four parts of the platform whose behaviour spans functions,
calls or whole runs, and proofs of what they promise together.

**The parser messages** (`packages/contracts/src/generated/parser.ts`). Seven
message types are written by an encoder and read by a decode loop over one
moving position. `Wire` holds the primitives of the Protocol Buffers Encoding
specification (sections "Base 128 Varints", "Message Structure", "Signed
Integers", "Length-Delimited Records", "Missing Elements", "Last One Wins")
beside an independent grammar of well-formed bytes. `Records` proves, once for
every message type, that the loop is a left fold of single-field updates over
records, accepts exactly what the grammar spells, and depends only on the bytes
it consumes. `Dispatch` and `Scalars` tie the generated switches to that
grammar, `Codecs` turns a message type into a sub-codec others can embed, and
`Messages` and `Nested` supply the seven types. `BinaryIO`, `Decoders` and
`Encoders` are the imperative code: a reader that moves byte by byte, a writer
with fork and join, and the loops, each proved to be the fold of its message.
`Grammars` says for every decode loop what it does with which bytes, and
`Embedded` carries that into embedded tasks; `Canonical` says which records the
encoders write. The results a caller relies on are
in `ParserTheorems`; `Declared` compares the generated tags with `parser.proto`.

**The HTTP client** (`packages/foundation/src/external/http`). `Breaker` is a
state machine over call starts, settlements, notifications, timer firings and
rejections, with any number of calls under way; `BreakerAdapter` is the adapter
object that performs those steps. `Errors` is the mapper chain and the executor
of one attempt, `Retry` the policy, classifier, backoff and loop, and `Stack`
one request through all of it and runs of requests one after another. `Traffic`
lets any number of requests overlap, every attempt, settlement, notification,
timer and answer being a step of its own, and `TrafficBudget` bounds what such
traffic can cost.

The breaker library is an assumed environment of three states: `open()` does
nothing when open; the reset timer makes an open breaker half-open; a reported
success closes a half-open one; half-open admits one call and open rejects. One
assumption is about timing: the timer does not fire between a call settling in
the wrapper and the breaker hearing of it. `FailureClosesOnlyAcrossTimer` proves
that this is the only way a failure could close the breaker, and
`LateTimerClosesOnFailure` gives the run in which it would.

**Connecting with retries** (`resilience/retry-connect.ts`) is `Connect`.

**Cache and upload limit**. `Cache` lets any number of services act on one
Redis keyspace in any interleaving, with the read and the self-healing delete of
a get as separate steps; `CacheService` is the service object. `SizeLimit` is
the byte-counting stream filter.

## Where code, documentation and expectation differ

The model follows the code.

- `circuit-open.error.ts:1-8` says the error is raised when the breaker rejects
  without invoking the inner function. The adapter also raises it for the call
  whose failure trips the breaker, for a failed probe, for a request that failed
  while another's failure had opened the breaker, and for any error whose message
  contains the breaker's phrase: `Traffic.CircuitOpenRepliedExactly`, with a run
  in `Traffic.OthersFailureSurfaces`.
- `docs/runbooks/env-setup.md:250-252` expects 1.5 to 7 seconds for three
  attempts with backoff. The waiting itself is 300 to 600 milliseconds:
  `Retry.DefaultWait`.
- A retry budget that is not whole sleeps once more after the last attempt, so
  "sleeps = attempts - 1" holds exactly under the condition in
  `Retry.LoopExact`, and `Retry.HalfAttemptSleeps` is an input without it. A budget below 1 makes no attempt and throws `undefined`.
- A self-heal is not atomic with its read and can delete a value written in
  between: `Cache.HealRemovesValidExactly` says exactly when.
- Isolation of two services is a matter of their prefixes, not of their names
  being different: `Cache.IsolationExactly`. Names without a colon suffice.
- A stop tag inside an embedded task ends the task's loop before its window
  does, and the outer loop goes on inside that window:
  `ParserTheorems.StopTagSplitsWindow`. Framing therefore holds for windows of
  records, and what a loop does with any other bytes is stated by
  `Grammars.GrammarAccepts`.
- An embedded `pagination` is replaced by a later one, not merged, unlike the
  standard's rule for submessages.

## Model

| member | source | states |
|---|---|---|
| `Wire.VarintAt` | packages/contracts/src/generated/parser.ts:338 | reading a base-128 varint, as every tag, length and int32 is read, consumes at least one byte and never passes the buffer's end; past the end it fails |
| `Wire.SkipExact` | packages/contracts/src/generated/parser.ts:432 | a payload of wire type 0, 1, 2 or 5 is skipped to its last byte and no further exactly when the grammar calls it well formed; any other wire type fails |
| `Wire.VarintReads` | packages/contracts/src/generated/parser.ts:338 | every varint of the grammar, wherever it stands, reads as the number its seven-bit groups spell |
| `Wire.VarintReadOnlyIf` | packages/contracts/src/generated/parser.ts:338 | whatever reads as a varint is a varint of the grammar with that value |
| `Wire.DelimitedReads` | packages/contracts/src/generated/parser.ts:345 | a length-delimited run reads as exactly its body, wherever it stands |
| `Wire.DelimitedReadOnlyIf` | packages/contracts/src/generated/parser.ts:345 | whatever reads as a string is a length-delimited run of the grammar |
| `Wire.VarintWritten` | packages/contracts/src/generated/parser.ts:312-317 | a number that fits k groups of seven bits is written in at most k bytes, and they denote it |
| `Wire.VarintShortest` | packages/contracts/src/generated/parser.ts:298 | no spelling of a number is shorter than the one written |
| `Wire.TenBytesAtMost` | packages/contracts/src/generated/parser.ts:338 | ten bytes that all announce another one are refused by every read and by skipping |
| `Wire.Int32RoundTrip` | packages/contracts/src/generated/parser.ts:312-317 | every int32, negative ones as sign-extended 64-bit varints, reads back in any surrounding buffer and consumes exactly the bytes written |
| `Wire.Int32Width` | packages/contracts/src/generated/parser.ts:312-317 | a negative int32 takes exactly ten bytes, any other at most five |
| `Records.Run` | packages/contracts/src/generated/parser.ts:453-483 | the decode loop on any bytes, malformed ones too, ends, and when it accepts has moved strictly forward without passing the buffer's end |
| `Records.RunRecords` | packages/contracts/src/generated/parser.ts:333-435 | decoding a sequence of records equals folding single-field updates over it and carrying on behind it |
| `Records.RunWindow` | packages/contracts/src/generated/parser.ts:333-337 | a window that holds exactly records decodes to their fold and ends at the window's end, whatever bytes surround it |
| `Records.AcceptsExactly` | packages/contracts/src/generated/parser.ts:333-435 | a loop answers m at position n exactly when the bytes between are records, ended by the window or a stop tag, that fold to m |
| `Records.RunLocal` | packages/contracts/src/generated/parser.ts:333-435 | the answer depends only on the bytes consumed: they give the same answer in another buffer and at another offset |
| `Records.FoldReordered` | packages/contracts/src/generated/parser.ts:338-433 | two record sequences in which each field has the same values in the same order fold to the same message |
| `Records.LastWins` | packages/contracts/src/generated/parser.ts:345 | an earlier record of a replaced field makes no difference once a later one follows |
| `Dispatch.RecordGrammar` | packages/contracts/src/generated/parser.ts:338-433 | the records the loop consumes are exactly the byte strings of the record grammar, in every varint spelling of their tags |
| `Dispatch.StopGrammar` | packages/contracts/src/generated/parser.ts:429-431 | the loop stops early exactly at an unknown tag that is zero or has wire type 4 |
| `Dispatch.RunTagged` | packages/contracts/src/generated/parser.ts:338-432 | one iteration: a known tag is read and applied, a stop tag ends the loop, anything else is skipped by wire type, and a failed read fails the whole decode |
| `Scalars.ScalarGrammar` | packages/contracts/src/generated/parser.ts:339-427 | which payloads a string, int32 or bool field reads as a given value |
| `Codecs.RoundTrip` | packages/contracts/src/generated/parser.ts:684-687 | for any message type whose encoder lays down records that fold back to the message: decode after encode in any window of any buffer gives the message and ends at the window's end |
| `Codecs.EncodedInjective` | packages/contracts/src/generated/parser.ts:684-687 | different messages never share an encoding |
| `Codecs.CodecLawful` | packages/contracts/src/generated/parser.ts:333-337 | every such message type is itself a sub-codec that moves forward, frames and depends only on the bytes it consumes |
| `Messages.TaskSound` | packages/contracts/src/generated/parser.ts:296-435 | what ParserTask.encode lays down is records, and folding them from the base message gives the task back |
| `Messages.TaskIdSound` | packages/contracts/src/generated/parser.ts:70-99 | the same for ParserTaskIdRequest |
| `Messages.CreateSound` | packages/contracts/src/generated/parser.ts:107-169 | the same for CreateParserTaskRequest |
| `Messages.UpdateSound` | packages/contracts/src/generated/parser.ts:225-276 | the same for UpdateParserSettingsRequest, absent fields included |
| `Messages.SettingsSound` | packages/contracts/src/generated/parser.ts:491-542 | the same for ParserSettings |
| `Messages.TaskLaws` | packages/contracts/src/generated/parser.ts:339-427 | updates of different task fields commute and each field keeps its last value |
| `Messages.UpdateLaws` | packages/contracts/src/generated/parser.ts:244-268 | the same for the update request |
| `Messages.TaskIdLaws` | packages/contracts/src/generated/parser.ts:83-91 | the same for the task id request |
| `Messages.CreateLaws` | packages/contracts/src/generated/parser.ts:129-161 | the same for the create request |
| `Messages.SettingsLaws` | packages/contracts/src/generated/parser.ts:510-534 | the same for the settings |
| `Declared.TaskFollowsDeclaration` | packages/contracts/proto/parser.proto:43-55 | the task decoder knows exactly the declared fields under the tags of their numbers and types, and each record sets its own field alone |
| `Declared.RequestsFollowDeclaration` | packages/contracts/proto/parser.proto:19-66 | the same for the flat requests and the settings |
| `Declared.ListsFollowDeclaration` | packages/contracts/proto/parser.proto:30-60 | the same for the two messages with submessages: exactly these tags are known, and each record sets its own field |
| `Nested.SubWritten` | packages/contracts/src/generated/parser.ts:445 | a submessage written behind its length reads back in any buffer and ends at its last byte |
| `Nested.ListFolds` | packages/contracts/src/generated/parser.ts:463-475 | folding a list's records onto a message appends its tasks in order and replaces, not merges, pagination |
| `Nested.ListSound` | packages/contracts/src/generated/parser.ts:443-483 | what ParserTaskList.encode lays down is records that fold back to the list, given lawful sub-codecs |
| `Nested.RequestSound` | packages/contracts/src/generated/parser.ts:177-217 | the same for ListParserTasksRequest |
| `Nested.ListCommutes` | packages/contracts/src/generated/parser.ts:459-475 | task and pagination records commute, and a later pagination replaces an earlier one |
| `Canonical.FieldBytes` | packages/contracts/src/generated/parser.ts:298 | a field's bytes: a tag of one byte; a string behind its length, a sign-extended 64-bit varint, or a single byte 1 or 0 |
| `Canonical.TaskCanonical` | packages/contracts/src/generated/parser.ts:296-331 | a task's encoding has exactly one record for each field that is not empty or zero, in the order of the field numbers, and no other |
| `Canonical.TaskIdCanonical` | packages/contracts/src/generated/parser.ts:70-75 | the same for the task id request |
| `Canonical.CreateCanonical` | packages/contracts/src/generated/parser.ts:107-121 | the same for the create request |
| `Canonical.UpdateCanonical` | packages/contracts/src/generated/parser.ts:225-236 | the same for what an update sets, zero and false included |
| `Canonical.SettingsCanonical` | packages/contracts/src/generated/parser.ts:491-502 | the same for settings that are neither zero nor false |
| `Canonical.ListCanonical` | packages/contracts/src/generated/parser.ts:443-451 | a list's encoding is one record per task in order and then its pagination, each a tag, a length and the submessage's encoding |
| `Canonical.RequestCanonical` | packages/contracts/src/generated/parser.ts:177-185 | the same for the list request: its pagination if any, then its user unless empty |
| `BinaryIO.BinaryReader.Varint` | packages/contracts/src/generated/parser.ts:338 | the loop that gathers seven-bit groups byte by byte computes the varint of the grammar, leaves the reader behind its last byte, and fails past ten bytes or the buffer's end |
| `BinaryIO.BinaryReader.String` | packages/contracts/src/generated/parser.ts:345 | a length and that many bytes, or a failure, on the moving reader |
| `BinaryIO.BinaryReader.Skip` | packages/contracts/src/generated/parser.ts:432 | one payload is passed over, by its wire type |
| `BinaryIO.BinaryWriter.Varint` | packages/contracts/src/generated/parser.ts:298 | the loop that writes seven-bit groups byte by byte appends the varint of its argument |
| `BinaryIO.BinaryWriter.Join` | packages/contracts/src/generated/parser.ts:445 | join() appends the forked bytes behind their length to the buffer fork() set aside |
| `Decoders.DecodeTaskId` | packages/contracts/src/generated/parser.ts:77-99 | the loop on the moving reader answers, or fails, exactly as the record loop of ParserTaskIdRequest does, and leaves the reader at its end |
| `Decoders.DecodeCreate` | packages/contracts/src/generated/parser.ts:123-169 | the same for CreateParserTaskRequest |
| `Decoders.DecodeRequest` | packages/contracts/src/generated/parser.ts:187-217 | the same for ListParserTasksRequest, its pagination decoded on the same reader |
| `Decoders.DecodeUpdate` | packages/contracts/src/generated/parser.ts:238-276 | the same for UpdateParserSettingsRequest |
| `Decoders.DecodeTask` | packages/contracts/src/generated/parser.ts:333-435 | the same for ParserTask |
| `Decoders.DecodeList` | packages/contracts/src/generated/parser.ts:453-483 | the same for ParserTaskList, each embedded task decoded on the same reader |
| `Decoders.DecodeSettings` | packages/contracts/src/generated/parser.ts:504-542 | the same for ParserSettings |
| `Decoders.TaskCodecLawful` | packages/contracts/src/generated/parser.ts:333-435 | the task codec obeys the laws the list codec asks of its sub-codecs |
| `Encoders.EncodeTaskId` | packages/contracts/src/generated/parser.ts:70-75 | the encoder appends exactly the message's records, and fails exactly when a length is no uint32 |
| `Encoders.EncodeCreate` | packages/contracts/src/generated/parser.ts:107-121 | the same for CreateParserTaskRequest |
| `Encoders.EncodeRequest` | packages/contracts/src/generated/parser.ts:177-185 | the same for ListParserTasksRequest |
| `Encoders.EncodeUpdate` | packages/contracts/src/generated/parser.ts:225-236 | the same for UpdateParserSettingsRequest |
| `Encoders.EncodeTask` | packages/contracts/src/generated/parser.ts:296-331 | the same for ParserTask |
| `Encoders.EncodeList` | packages/contracts/src/generated/parser.ts:443-451 | the same for ParserTaskList, whose submessages are forked and joined; the writers set aside are untouched |
| `Encoders.EncodeSettings` | packages/contracts/src/generated/parser.ts:491-502 | the same for ParserSettings |
| `ParserTheorems.ListRoundTrip` | packages/contracts/src/generated/parser.ts:442-484 | a nested list decodes to itself, same tasks in the same order and same pagination or none, at any offset of any buffer, ending where its bytes do |
| `ParserTheorems.TransmitList` | packages/contracts/src/generated/parser.ts:642-643 | serialising with the writer and deserialising with the reader gives the list back exactly when every length fits a uint32, and fails otherwise |
| `ParserTheorems.TransmitRequest` | packages/contracts/src/generated/parser.ts:639-641 | the same for the list request |
| `ParserTheorems.TransmitUpdate` | packages/contracts/src/generated/parser.ts:667-669 | an update always arrives, absent told apart from 0 and false in all three fields |
| `ParserTheorems.TransmitSettings` | packages/contracts/src/generated/parser.ts:670-671 | settings always arrive, although defaults are not written |
| `ParserTheorems.OnlyDefaultTaskIsEmpty` | packages/contracts/src/generated/parser.ts:296-331 | the all-default task, and no other, is encoded as no bytes |
| `ParserTheorems.PresencePreserved` | packages/contracts/src/generated/parser.ts:225-236 | two updates, or two settings, have the same bytes exactly when they are equal; no bytes means nothing set, or all defaults |
| `Grammars.GrammarAccepts` | packages/contracts/src/generated/parser.ts:333-435 | every decode loop accepts exactly what its grammar on the bytes spells, with the fold as its answer |
| `Embedded.TaskAcceptsExactly` | packages/contracts/src/generated/parser.ts:333-435 | that, for ParserTask on every byte sequence and window |
| `Embedded.SubSpelled` | packages/contracts/src/generated/parser.ts:465 | a submessage field reads a value wherever it stands exactly when its bytes are a length, in any spelling, and bytes its codec reads with that much room |
| `Embedded.TaskPayloadSpelled` | packages/contracts/src/generated/parser.ts:465 | for an embedded task, that means: bytes that by the task's own grammar spell records folding to it |
| `Embedded.TextSpelled` | packages/contracts/src/generated/parser.ts:208 | a string field reads a value wherever it stands exactly when its bytes are a delimited run with that body |
| `Embedded.ListDescribed` | packages/contracts/src/generated/parser.ts:459-475 | the list's switch reads exactly what the list grammar spells, its tasks spelled by the task grammar |
| `Embedded.RequestRecognised` | packages/contracts/src/generated/parser.ts:193-209 | the same for the list request |
| `ParserTheorems.ListAcceptsExactly` | packages/contracts/src/generated/parser.ts:453-483 | what the list decoder answers on every byte sequence and window, by the grammars of lists and of the tasks inside them |
| `ParserTheorems.RequestAcceptsExactly` | packages/contracts/src/generated/parser.ts:187-217 | the same for the list request |
| `Grammars.UnknownInserted` | packages/contracts/src/generated/parser.ts:429-432 | a record with an unknown field number or the wrong wire type, in any spelling, inserted at any record boundary leaves the decoded message unchanged |
| `Grammars.DependsOnFieldsOnly` | packages/contracts/src/generated/parser.ts:338-432 | any two record sequences with the same values per known field in the same order decode alike, whatever the order across fields and whatever unknown records stand between |
| `ParserTheorems.TaskDependsOnFieldsOnly` | packages/contracts/src/generated/parser.ts:333-435 | that, for ParserTask |
| `ParserTheorems.ListDependsOnFieldsOnly` | packages/contracts/src/generated/parser.ts:453-483 | that, for ParserTaskList |
| `ParserTheorems.TaskLastWins` | packages/contracts/src/generated/parser.ts:345 | a task record followed by a later one of the same field may be dropped |
| `ParserTheorems.TaskRecordDecodes` | packages/contracts/src/generated/parser.ts:463-466 | a task record of a list, spelled in any way by the task grammar, adds its task in its place |
| `ParserTheorems.ListDependsOnTaskFieldsOnly` | packages/contracts/src/generated/parser.ts:463-466 | order independence and forward compatibility inside an embedded task: spellings of it with the same values per known field give the same list, whatever unknown records they hold |
| `ParserTheorems.Concatenation` | packages/contracts/src/generated/parser.ts:333-435 | two encodings back to back decode to the second's records folded onto the first message |
| `ParserTheorems.ListConcatenation` | packages/contracts/src/generated/parser.ts:465-473 | two encoded lists back to back decode to the appended tasks and the later pagination |
| `ParserTheorems.StopTagSplitsWindow` | packages/contracts/src/generated/parser.ts:453-483 | a concrete malformed input: one task record of three bytes that decodes as two tasks, because a stop tag ends the inner loop early |
| `Breaker.StepKeepsInv` | packages/foundation/src/external/http/circuit-breaker/opossum-circuit-breaker.adapter.ts:47-78 | every step, in any interleaving of overlapping calls, keeps 0 <= consecutiveFailures < threshold and never leaves a half-open breaker owed news of a failure |
| `Breaker.ReachableInv` | packages/foundation/src/external/http/circuit-breaker/opossum-circuit-breaker.adapter.ts:47-78 | so every reachable state has it |
| `Breaker.OnlyResolvedCloses` | packages/foundation/src/external/http/circuit-breaker/opossum-circuit-breaker.adapter.ts:47-78 | in every run the breaker closes only at the notification of a call that resolved during that same half-open period, although errorFilter reports every rejection as a success |
| `Breaker.FailureClosesOnlyAcrossTimer` | packages/foundation/src/external/http/circuit-breaker/opossum-circuit-breaker.adapter.ts:47-78 | with the timer unconstrained, a failed call can close the breaker only if the timer fired between its settling and its notification |
| `Breaker.LateTimerClosesOnFailure` | packages/foundation/src/external/http/circuit-breaker/opossum-circuit-breaker.adapter.ts:47-78 | a concrete run in which such a timer does close the breaker on a failure |
| `Breaker.CounterIsStreak` | packages/foundation/src/external/http/circuit-breaker/opossum-circuit-breaker.adapter.ts:57-76 | while closed, the counter is the number of failures since the later of the last success and the start of the closed period |
| `Breaker.CounterIsRecent` | packages/foundation/src/external/http/circuit-breaker/opossum-circuit-breaker.adapter.ts:57-76 | in every state, open and half-open ones too, the counter is the number of failures since the last success or half-open failure, begun again each time it reaches the threshold |
| `Breaker.OpensExactlyAtThreshold` | packages/foundation/src/external/http/circuit-breaker/opossum-circuit-breaker.adapter.ts:70-74 | closed becomes open exactly at the threshold-th failure in a row, never half-open, and every closed period starts at zero |
| `Breaker.HalfOpenAdmitsOne` | packages/foundation/src/external/http/circuit-breaker/opossum-circuit-breaker.adapter.ts:47-53 | an uninterrupted half-open period admits at most one call |
| `Breaker.AdmitsExactly` | packages/foundation/src/external/http/circuit-breaker/opossum-circuit-breaker.adapter.ts:47-53 | in every reachable state a new call is admitted if and only if the breaker is closed, or half-open with no call started since the timer that made it so; otherwise it is rejected |
| `Breaker.Recovers` | packages/foundation/src/external/http/circuit-breaker/opossum-circuit-breaker.adapter.ts:47-78 | from every reachable open state with no news outstanding, whatever still runs: the timer fires, one call is admitted, and the breaker ends closed at zero if that call resolves and open if it fails |
| `BreakerAdapter.OpossumCircuitBreakerAdapter.constructor` | packages/foundation/src/external/http/circuit-breaker/opossum-circuit-breaker.adapter.ts:41-55 | a new adapter is closed with no failures |
| `BreakerAdapter.OpossumCircuitBreakerAdapter.Fire` | packages/foundation/src/external/http/circuit-breaker/opossum-circuit-breaker.adapter.ts:94-96 | a call is admitted exactly when the breaker is closed or has its half-open probe left; otherwise nothing changes |
| `BreakerAdapter.OpossumCircuitBreakerAdapter.Wrap` | packages/foundation/src/external/http/circuit-breaker/opossum-circuit-breaker.adapter.ts:57-78 | the wrapper on the object's fields is the settle step of the state machine |
| `BreakerAdapter.OpossumCircuitBreakerAdapter.NotifySuccess` | packages/foundation/src/external/http/circuit-breaker/opossum-circuit-breaker.adapter.ts:52 | the breaker's handling of a finished call is the notify step, whatever the outcome was |
| `BreakerAdapter.OpossumCircuitBreakerAdapter.ResetTimeout` | packages/foundation/src/external/http/circuit-breaker/opossum-circuit-breaker.adapter.ts:48 | the reset timer on the object's fields is the timer step, which `Breaker.AdmitsExactly` and `Breaker.Recovers` describe by what it admits |
| `Errors.FallbackRedundant` | packages/foundation/src/external/http/errors/http-error-normalizer.ts:21-25 | for every mapper chain, appending the fallback mapper leaves normalize unchanged |
| `Errors.FirstMatchDecides` | packages/foundation/src/external/http/errors/http-error-normalizer.ts:22-24 | the first matching mapper decides, whatever stands before or behind it |
| `Errors.ChainNormalizes` | packages/foundation/src/external/http/provider/http-client.provider.ts:94-98 | what the installed chain makes of every thrown value |
| `Errors.HttpRequestExecutor.Execute` | packages/foundation/src/external/http/client/request-executor.ts:50-82 | one attempt: 200 to 299 resolves, any other status is an HttpError; with the installed chain, timeout names become TimeoutError, a TypeError with a cause NetworkError, foundation and other errors pass, anything else becomes an Error; and exactly which log line it writes |
| `Errors.AttemptIsOutcome` | packages/foundation/src/external/http/client/request-executor.ts:63-81 | the same for the attempts the request traffic is made of |
| `Retry.BackoffShape` | packages/foundation/src/external/http/retry/retry-backoff.ts:14-18 | bases never decrease, lie between the limits, stay below the exponential, and each sleep lies in the upper half of its base |
| `Retry.BaseDoubles` | packages/foundation/src/external/http/retry/retry-backoff.ts:15-16 | the first base is the lower limit, each next one twice the one before until that would pass the upper limit, and the upper limit from there on |
| `Retry.ResolvedBases` | packages/foundation/src/external/http/retry/constants.ts:12-17 | under every resolved policy the bases are 200, 400, 800, 1600, 3200 and then 5000 milliseconds |
| `Retry.TotalSleepBounded` | packages/foundation/src/external/http/retry/retry-backoff.ts:14-18 | n sleeps take at most backoffMin * (2^n - 1) and at most n times the larger limit, for every policy and every draw |
| `Retry.Run` | packages/foundation/src/external/http/retry/default-retry-executor.ts:22-34 | the loop answers with its last attempt's outcome, or throws undefined without one; it makes the stated attempts and sleeps, each sleep half its base and the draw's share of the other half |
| `Retry.LoopExact` | packages/foundation/src/external/http/retry/default-retry-executor.ts:22-34 | attempts = min(whole budget, 1 + leading retryable failures), none below a budget of 1; sleeps = attempts - 1 if and only if the budget is whole or is not used up |
| `Retry.WaitingTime` | packages/foundation/src/external/http/retry/retry-policy.resolver.ts:14-27 | with the resolver's limits A attempts wait at most 200 * (2^n - 1) and at most 5000 * n milliseconds, where n is A - 1, or A if a budget that is not whole is used up |
| `Retry.HalfAttemptSleeps` | packages/foundation/src/external/http/retry/default-retry-executor.ts:24-31 | such an input: a GET with a budget of 2.5 and two retryable failures makes two attempts and sleeps twice |
| `Retry.DefaultWait` | packages/foundation/src/external/http/retry/constants.ts:12-17 | with the default budget, two retryable failures lead to three attempts and 300 to 600 milliseconds of waiting |
| `Retry.RetriedExactly` | packages/foundation/src/external/http/retry/retry-policy.classifier.ts:17-24 | through executor, chain (with its fallback mapper or without) and classifier: an attempt is retried exactly when the budget has room and it was a status of 500 or more, a timeout by name, or a TypeError with a cause (or a foundation error of those kinds) |
| `Stack.Serve` | packages/foundation/src/external/http/client/abstract-http.client.ts:91 | the adapter object around the retry loop, uninterrupted but with any other calls under way, behaves as one request of the state machine, in state, answer and attempts |
| `Stack.RejectedCostsNothing` | packages/foundation/src/external/http/client/abstract-http.client.ts:79-91 | in every state, with any other calls under way, a rejected request makes no attempt, changes nothing and is answered with CircuitOpenError |
| `Stack.AtMostOnce` | packages/foundation/src/external/http/retry/retry-policy.resolver.ts:14-19 | in every state, an uninterrupted non-idempotent request runs the executor once if admitted and never otherwise, whatever retries says |
| `Stack.SingleShot` | packages/foundation/src/external/http/retry/retry-policy.resolver.ts:14-19 | a non-idempotent request's loop makes one attempt, whatever retries says and whatever comes of it |
| `Stack.BudgetFromCall` | packages/foundation/src/external/http/retry/retry-policy.resolver.ts:14-27 | from the call's fields alone: with failures worth retrying throughout, floor(retries) attempts if idempotent and at least 1, none below 1, three without retries, one if not idempotent |
| `Stack.AttemptsFromOutcomes` | packages/foundation/src/external/http/retry/default-retry-executor.ts:22-34 | with a whole budget n, k < n failures worth retrying and then another outcome are k + 1 attempts and k sleeps, n failures are n attempts and n - 1 sleeps, answered by the last attempt's outcome as the executor classifies it |
| `Stack.CircuitOpenSeenExactly` | packages/foundation/src/external/http/circuit-breaker/opossum-circuit-breaker.adapter.ts:94-108 | for an uninterrupted request in any reachable state: exactly when its caller sees CircuitOpenError, calls that did run included; otherwise it sees the retry loop's answer |
| `Stack.MentionsOpenExactly` | packages/foundation/src/external/http/circuit-breaker/opossum-circuit-breaker.adapter.ts:100-103 | an error counts as the breaker's own exactly when its whole message contains the words Breaker is open, however the number in it is printed |
| `Stack.CallMoves` | packages/foundation/src/external/http/circuit-breaker/opossum-circuit-breaker.adapter.ts:57-78 | what an uninterrupted admitted call does to the breaker, case by case, with any other calls under way |
| `Stack.AdmittedBounded` | packages/foundation/src/external/http/client/abstract-http.client.ts:79-91 | failing requests, one at a time from any reachable state, are admitted at most as often as the remaining failures plus the half-open periods allow |
| `Stack.AttemptBudget` | packages/foundation/src/external/http/client/abstract-http.client.ts:79-91 | in every run of failing requests one at a time, with h half-open periods, the executor runs at most (threshold + h) * A times |
| `Stack.BurstOpens` | docs/runbooks/env-setup.md:242-244 | failing requests on a fresh breaker are all admitted up to the threshold, and the last of them, not an earlier one, opens it |
| `Stack.ProbeIsAdmitted` | packages/foundation/src/external/http/circuit-breaker/opossum-circuit-breaker.adapter.ts:47-53 | on an open breaker, the first request after the timer is admitted and makes its attempts, and its outcome closes the breaker at zero or opens it again |
| `Stack.BudgetReached` | packages/foundation/src/external/http/client/abstract-http.client.ts:79-91 | the attempt budget is attained for every threshold, h and A: a burst of failures and then one failing request after each timer run the executor exactly (threshold + h) * A times |
| `Traffic.LoopSteps` | packages/foundation/src/external/http/retry/default-retry-executor.ts:24-33 | the retry loop taken attempt by attempt never passes the attempts of a whole run, and where it stops it has made them all and answers as the run does |
| `Traffic.Projects` | packages/foundation/src/external/http/client/abstract-http.client.ts:91 | the breaker inside any traffic of overlapping requests goes through a run of the breaker alone |
| `Traffic.RunsExactly` | packages/foundation/src/external/http/client/abstract-http.client.ts:79-91 | at every moment of every interleaving: a rejected request has run the executor not at all, any other at most as often as its loop does alone, and exactly so often once through it |
| `Traffic.NeverTwice` | packages/foundation/src/external/http/retry/retry-policy.resolver.ts:14-19 | at most once: in every interleaving, breaker state and failure pattern a non-idempotent request runs the executor at most once, never if rejected, once if answered otherwise |
| `Traffic.NeverStuck` | packages/foundation/src/external/http/client/abstract-http.client.ts:91 | no request waits for another: in every world of every interleaving, an unanswered request has a step of its own that can happen, and a new one can arrive |
| `Traffic.OpenExactly` | packages/foundation/src/external/http/circuit-breaker/opossum-circuit-breaker.adapter.ts:64-74 | the breaker is open exactly when some request's failure opened it with no timer since |
| `Traffic.CircuitOpenRepliedExactly` | packages/foundation/src/external/http/circuit-breaker/opossum-circuit-breaker.adapter.ts:94-108 | with any number of requests under way, a caller sees CircuitOpenError exactly when it was rejected; or it failed, and its own or another request's failure had opened the breaker with no timer since; or its error says so. Otherwise it sees its own loop's answer |
| `Traffic.OthersFailureSurfaces` | packages/foundation/src/external/http/circuit-breaker/opossum-circuit-breaker.adapter.ts:100-105 | such a run: an admitted request that got status 404 and opened nothing is answered with CircuitOpenError, because two others failed meanwhile |
| `TrafficBudget.StepAccounted` | packages/foundation/src/external/http/circuit-breaker/opossum-circuit-breaker.adapter.ts:57-78 | what every step of overlapping failing calls keeps: while closed, admitted = failed + still running; afterwards one more for each half-open period |
| `TrafficBudget.AdmittedAtMost` | packages/foundation/src/external/http/client/abstract-http.client.ts:79-91 | failing requests, at most w in their loops at once: at most threshold - 1 + w + h are admitted |
| `TrafficBudget.RunsPerAdmitted` | packages/foundation/src/external/http/client/abstract-http.client.ts:79-91 | in any traffic, failing or not, the executor runs at most A times per admitted request, all requests together |
| `TrafficBudget.OverlappingBudget` | packages/foundation/src/external/http/client/abstract-http.client.ts:79-91 | the attempt budget under overlap: at most (threshold - 1 + w + h) * A executor runs |
| `Connect.RetryConnect` | packages/foundation/src/external/resilience/retry-connect.ts:28-53 | the loop stops at the first success or the last allowed failure, and gives up with the last dial's message; each option is the caller's or 5, 200, 5000; each wait is the smaller of base * 2^i and the cap plus a whole number below base; the total is at most (maxRetries - 1) * (maxDelay + base - 1) |
| `Connect.LeadingFailures` | packages/foundation/src/external/resilience/retry-connect.ts:30-40 | the count of failures before the first success, capped by the budget, is what it says |
| `Connect.LeastDelayDoubles` | packages/foundation/src/external/resilience/retry-connect.ts:42-44 | the least delay is the base within the cap at first, then doubles until that would pass the cap, and is the cap from there on |
| `Connect.DelayBounds` | packages/foundation/src/external/resilience/retry-connect.ts:42-44 | no delay is longer than maxDelay + base - 1 or shorter than its least delay |
| `Connect.TotalDelayBounded` | packages/foundation/src/external/resilience/retry-connect.ts:42-44 | any number of such delays, however the draws fall, adds up to at most that many times the longest one |
| `Cache.KeyspacesDisjointExactly` | packages/foundation/src/external/cache/cache.service.ts:90-92 | two services' keys never meet exactly when neither prefix begins with the other |
| `Cache.PlainNamespacesApart` | packages/foundation/src/external/cache/cache.service.ts:17 | distinct namespaces without a colon are apart |
| `Cache.OthersUntouched` | packages/foundation/src/external/cache/cache.service.ts:34-88 | no set, del, expiry or self-heal of one service shows in another's view |
| `Cache.OwnStep` | packages/foundation/src/external/cache/cache.service.ts:34-88 | the acting service sees what its private map would do and would answer |
| `Cache.IsolationExactly` | packages/foundation/src/external/cache/cache.service.ts:90-92 | isolation holds if and only if the prefixes are apart |
| `Cache.SharedRefinesPrivate` | packages/foundation/src/external/cache/cache.service.ts:34-92 | in every interleaving of any number of services, two-step gets included, a service sees the states and answers of a private map on which it acted alone |
| `Cache.StoreAfter` | packages/foundation/src/external/cache/cache.service.ts:34-88 | after any run, a key holds what the last operation that wrote it left |
| `Cache.ReadExactly` | packages/foundation/src/external/cache/cache.service.ts:34-80 | a read changes nothing, answers absent, the stored text, or corrupt with its reason, and has a self-heal to follow exactly when corrupt |
| `Cache.HealRemovesValidExactly` | packages/foundation/src/external/cache/cache.service.ts:41-55 | a self-heal removes a valid entry exactly when the last write between its read and its del was a set of a valid value |
| `Cache.HealDropsFreshValue` | packages/foundation/src/external/cache/cache.service.ts:41-55 | the run in which that happens |
| `CacheService.RedisCacheService.Get` | packages/foundation/src/external/cache/cache.service.ts:34-80 | absent exactly when the prefixed key is not stored, json-parse exactly when parsing fails, schema-mismatch exactly when a given schema rejects, otherwise exactly the stored text; the entry goes exactly in the corrupt cases with a working del |
| `CacheService.RedisCacheService.SetKey` | packages/foundation/src/external/cache/cache.service.ts:82-84 | set changes one entry of the shared store, under the prefixed key |
| `CacheService.RedisCacheService.DelKey` | packages/foundation/src/external/cache/cache.service.ts:86-88 | del removes that entry and nothing else |
| `CacheService.GetIsTwoSteps` | packages/foundation/src/external/cache/cache.service.ts:34-80 | an uninterrupted get is the read and heal steps of the shared keyspace |
| `SizeLimit.SizeCountingTransform.Transform` | packages/foundation/src/external/storage/public/size-counting.transform.ts:15-22 | every chunk is counted; it is refused if the count now exceeds the limit and forwarded unchanged otherwise |
| `SizeLimit.Feed` | packages/foundation/src/external/storage/public/size-counting.transform.ts:15-22 | the filter's answer to every chunk of a stream as a function of the chunks so far |
| `SizeLimit.ForwardsLongestPrefix` | packages/foundation/src/external/storage/public/size-counting.transform.ts:9-23 | the chunks forwarded are the longest prefix within the limit; one refusal means all later chunks are refused; and there is a refusal if and only if the total exceeds the limit |

## Left out

- UTF-8: a string field is its bytes; conversion, and what the writer does with an unpaired surrogate, are not modelled.
- `PaginationRequest` and `PaginationMeta`: their generated file is not part of this model. They are any sub-codec that obeys `Codecs.Lawful`, the laws `Decoders.TaskCodecLawful` proves of the task codec.
- Wire type 3 (groups): skipping one fails here, where a library may skip to its end tag. An embedded or top-level group is then an error rather than an ignored record.
- Varints of more than ten bytes are refused, in skipping as in reading, as the standard says.
- The reader's position after a failed read: a failure abandons the reader.
- The writer's chunks are one growing byte sequence, and lengths up to 2^32 - 1 are accepted although a runtime may run out of memory before.
- Int32 fields hold int32 values; the writer's refusal of other numbers, fractions and NaN among them, is not modelled.
- `undefined` among the tasks of a list, and messages with missing properties: the generated types exclude them.
- Breaker.OnlyResolvedCloses: assumes the timer does not fire between a call's settling and its notification; Breaker.FailureClosesOnlyAcrossTimer and Breaker.LateTimerClosesOnFailure say what happens without that assumption.
- The breaker library's rolling statistics, semaphore, fallback, health check and its own events; `dispose`, the transition listeners and the `state` getter, which reads two fields of the view.
- Stack.AttemptBudget: one request at a time; TrafficBudget.OverlappingBudget is the bound under overlap, which the width of the overlap enters; that bound too assumes no timer between a settling and its notification.
- `res.json()`, headers, request bodies, URLs as concatenations, `AbortSignal` and the network: one attempt is whatever fetch is said to do. The executor's log keeps url, status and outcome of each line.
- Milliseconds, budgets and random draws are real numbers, a draw lying in [0, 1); rounding, infinities and NaN are not modelled. `jitterRatio` is carried and, as in the code, read by nothing.
- `retryConnect` with options that are not whole numbers, or explicitly `undefined`; its logging.
- JSON parsing and schemas are an abstract verdict on the stored text, and a value is represented by that text; a schema that transforms the value is not modelled.
- Time to live is an expiry step that may happen at any moment. A Redis call that fails, other than the self-healing delete, ends the operation without effect and is not a step.
- `SizeLimit.Feed` keeps feeding after a refusal, to say what the filter would answer; a pipeline would stop there.
- Storage services other than the filter, gRPC transport, configuration, health indicators, logging adapters, dependency injection and the `apps`: stubs, wiring or field copying without a hard property.
