# Verification of the control plane's client-side components

A Dafny 4.11 model of the stateful and algebraic parts of the Spctre TypeScript packages: the MCP
server's policy cache, token manager and rate limiter, the CLI's telemetry outbox, log tail, hook
decision flow and hook installer, and the web application's codes and session-guard tokens. Every file
is one module; `dafny verify dfyconfig.toml` checks them all.

An object whose methods update its fields is a class, and each method is proved equal to a step function
on a datatype of the same fields. What happens between two awaits, two SQL statements or two processes
is a state machine over those same step functions; its theorems hold in every world of every run
(`IsRun`). Code made of expressions is functions and lemmas. Clocks, network replies, crashes, HMACs,
JSON parsing of file contents and case conversion are parameters, quantified over.

## What the modules say

- `RateLimiter` — the token bucket with bounded keys. Deleting full buckets is lossless: the limiter
  answers every trace as one with unlimited keys does, as long as the forced eviction does not fire; a
  concrete trace shows that the forced eviction is not lossless. Admissions in any window are bounded by
  the burst plus the refill, and a denial's `retryAfterMs` is exact whatever happens in between. The
  comment at `rate-limit.ts:34` says rates of 0 or less count as one; the code raises every rate below
  one, and so does the model (`Configure`).
- `PolicyCache` — shared fetches, expiry, back-off, stale responses and the two-layer gate. The comments
  at `server.ts:80-82` and `server.ts:542-544` read an omitted list as "unconstrained"; the code keeps
  the previous list on a refetch, and the model follows the code (`UnconstrainedUntilFirstList`). A call
  waits for the fetch under way (`CallTheorem`) and is judged after it (`VerdictTheorem`). Two scopes can
  share a cache key where names contain colons (`KeysAgreeIff`).
- `TokenManager` — single-flight refresh against a server that rotates refresh tokens. A rotated token
  is submitted again if and only if a rotated response was lost before; the retry loop itself does it.
  A request that the server processes late, after its retry has succeeded, kills the session without
  any loss (`LateRequestKills`).
- `Outbox`, `Flushers`, `LegacyMigration` — the SQLite outbox with reused row ids and crashes, with any
  number of flushers, and the migration of legacy files by any number of processes. One flusher at a time
  loses nothing; several lose a push if and only if one deletes it by the id of another (`LostIffTaken`).
  Migration unlinks a file that could not be read, so a passing read error loses a readable file
  (`FailedReadLosesFile`), and that is the only way (`ExactlyOnceTheorem`).
- `CanonicalJson`, `JsonNumbers`, `JsonStrings` — the sealed text. Two finite values have the same text
  if and only if they are equal as JSON values; the proof reads the text back with a parser.
- `LogTail`, `LogBatch`, `LogRotation`, `Utf8` — the incremental tail against the whole-file reader. The
  two differ on malformed lines (the tail skips them, the whole-file reader returns nothing at all), and
  `TailEqualsBatch` says exactly when they agree. Rotation is noticed only by a smaller size:
  `RotationAgreesIff` says exactly when a rotated log is read whole, and `RotationMissed` is a loss.
- `Bits`, `Base32`, `Totp` — Base32 with a 32-bit accumulator that is never masked, and the codes.
- `Base64Url`, `SessionGuard` — unpadded base64url, its re-padding, and the guard token.
- `GatewayPoll`, `Injection`, `HookFlow` — the escalation wait, the in-place credential injection, and
  the hook's decision with its deadline. A connector named "constructor" makes the hook err
  (`FailingCall`), and `FailsIff` says exactly when it does.
- `Redaction` — what is logged does not depend on anything under a sensitive key, on any object graph.
- `TomlSplice` — the managed block in a hand-edited configuration file. After a start marker without an
  end, installing and uninstalling take away the user's text from there on (`DanglingMarker`).
- `IdempotencyCache` — the bounded cache against the log of its sets. Setting a key again does not renew
  its place (`RefreshIsNotKept`), and an empty oldest key blocks eviction (`EmptyKeyBlocksEviction`).

## Model

| member | source | states |
|---|---|---|
| RateLimiter.Configure | packages/mcp-server/src/rate-limit.ts:51-56 | a second brings `perSecond` tokens and the capacity is `burst`, each at least one; ten thousand keys unless said otherwise |
| RateLimiter.TokenBucketRateLimiter.Check | packages/mcp-server/src/rate-limit.ts:58-80 | the whole new Map and the decision, as the step function of the run theorems gives them |
| RateLimiter.TokenBucketRateLimiter.Reclaim | packages/mcp-server/src/rate-limit.ts:87-105 | the deleting walk over the Map equals the reclamation the theorems reason about |
| RateLimiter.TokenBucketRateLimiter.Prepare | packages/mcp-server/src/rate-limit.ts:59-71 | the first half of a check: a new key gets a full bucket, after reclaiming if the Map is full, and a known one is refilled |
| RateLimiter.SweptKeeps | packages/mcp-server/src/rate-limit.ts:90-103 | the walk deletes exactly the full buckets, keeps the others in order, and its candidate is the first one least recently seen |
| RateLimiter.SweptInOrder | packages/mcp-server/src/rate-limit.ts:90-103 | what the walk leaves is in the order of the Map |
| RateLimiter.WalkKeeps | packages/mcp-server/src/rate-limit.ts:87-105 | from a consistent Map, what is left is exactly the buckets that are not full |
| RateLimiter.CheckedConsistent | packages/mcp-server/src/rate-limit.ts:58-80 | every check keeps the Map's keys and its insertion order in step |
| RateLimiter.PreparedEffect | packages/mcp-server/src/rate-limit.ts:59-71 | before a token is taken the caller's bucket holds what it could spend, no other bucket has changed, and without a forced eviction only full buckets are gone |
| RateLimiter.StepEffect | packages/mcp-server/src/rate-limit.ts:58-80 | one check: the answer and the new store in terms of what the caller could spend |
| RateLimiter.ForcedLoss | packages/mcp-server/src/rate-limit.ts:104 | a forced eviction always takes away a throttled bucket, never the caller's |
| RateLimiter.StepCovers | packages/mcp-server/src/rate-limit.ts:82-105 | one check keeps the bounded Map within the unlimited one, short of full buckets only, if and only if it does not fire the fallback |
| RateLimiter.LosslessEviction | packages/mcp-server/src/rate-limit.ts:82-105 | over every trace on which the fallback does not fire, all replies equal those of a limiter with unlimited keys |
| RateLimiter.ForcedEvictionLosesState | packages/mcp-server/src/rate-limit.ts:85-104 | a concrete trace on which the fallback fires and a throttled caller is admitted where the unlimited limiter refuses |
| RateLimiter.SpaceMade | packages/mcp-server/src/rate-limit.ts:62-104 | reclaiming a Map within its bound always leaves room for one more key |
| RateLimiter.RunBounded | packages/mcp-server/src/rate-limit.ts:58-105 | for non-empty keys and maxKeys of at least one, no run stores more than maxKeys buckets |
| RateLimiter.VictimIsLeastRecentlySeen | packages/mcp-server/src/rate-limit.ts:99-104 | a forced eviction, after any run, removes a throttled key that was last checked no later than any other throttled key |
| RateLimiter.AdmissionBound | packages/mcp-server/src/rate-limit.ts:58-80 | without forced eviction the checks admitted for a key in any window number at most the capacity plus what refills in the window |
| RateLimiter.ConfiguredBound | packages/mcp-server/src/rate-limit.ts:51-80 | the same in terms of the options: the burst and `perSecond` for each second of the window |
| RateLimiter.BurstIsExact | packages/mcp-server/src/rate-limit.ts:58-80 | a new key is admitted at one moment exactly as often as the capacity has whole tokens |
| RateLimiter.RetryIsLeast | packages/mcp-server/src/rate-limit.ts:78 | the advertised wait is the least whole number of milliseconds that refills one token |
| RateLimiter.WaitIsExact | packages/mcp-server/src/rate-limit.ts:58-80 | while a key has only been denied, a check of it is admitted exactly from the refill time on |
| RateLimiter.RetryAfterIsExact | packages/mcp-server/src/rate-limit.ts:73-80 | after a denial the first admitted check is the first at or after now plus retryAfterMs, whatever denied probes and other callers come between |
| PolicyCache.McpPolicyGate.BeginEnsure | packages/mcp-server/src/server.ts:582-613 | the fields and the path taken up to the first await: cached, joining, backing off, or starting a fetch |
| PolicyCache.KeysAgreeIff | packages/mcp-server/src/server.ts:585-587 | two scopes have one cache key if and only if agent and environment print alike, or colons in them make the same text |
| PolicyCache.McpPolicyGate.MergeMcpPolicyData | packages/mcp-server/src/server.ts:549-560 | a field that is not an array leaves the previous list in place |
| PolicyCache.McpPolicyGate.OnResponse | packages/mcp-server/src/server.ts:621-630 | a response is merged only for the current key, and restarts the 60 s window |
| PolicyCache.McpPolicyGate.OnFailure | packages/mcp-server/src/server.ts:637-647 | a failure for the current key starts the back-off and leaves every list alone |
| PolicyCache.McpPolicyGate.OnFinally | packages/mcp-server/src/server.ts:608-610 | only the fetch in the slot frees the slot |
| PolicyCache.McpPolicyGate.ToolPermitted | packages/mcp-server/src/server.ts:424-434 | a tool passes if and only if each layer has no list, or lists it and its name is not empty |
| PolicyCache.McpPolicyGate.ConnectorPermitted | packages/mcp-server/src/server.ts:436-443 | the same for connectors; a missing or empty name fails every present list |
| PolicyCache.SlotTheorem | packages/mcp-server/src/server.ts:582-613 | in every reachable state the slot belongs to the current key and holds the only unfinished fetch started since the last key change |
| PolicyCache.FreshnessTheorem | packages/mcp-server/src/server.ts:562-653 | every applied response is for the key current at that moment; without a key change the next fetch starts 60 s after a success and 30 s after a failure, even one that an earlier visit to the key started |
| PolicyCache.RefetchTheorem | packages/mcp-server/src/server.ts:568-606 | the converse: once those windows of the current visit have passed and no fetch runs, the next call starts one, so a grant takes effect |
| PolicyCache.CallTheorem | packages/mcp-server/src/server.ts:582-613 | in every run a call waits for the unfinished fetch of its visit, its own or another's, unless a response was applied within 60 s; it waits for nothing if and only if that is so, or no fetch runs and one failed within 30 s |
| PolicyCache.VerdictTheorem | packages/mcp-server/src/server.ts:424-434 | such a call is judged only after that fetch has its outcome and is done, and every call on the lists in force at that moment |
| PolicyCache.HistoryTheorem | packages/mcp-server/src/server.ts:424-443 | the three lists are those of the last applied responses that carried them, and every verdict ever given is both layers' verdict on the lists of that moment |
| PolicyCache.LastListGrows | packages/mcp-server/src/server.ts:549-560 | none of the three lists becomes absent again, and each changes only by an applied response that carries it |
| PolicyCache.NeverWidens | packages/mcp-server/src/server.ts:596-603 | a tool refused and later permitted is named by a list applied in between; expiry, failure and key changes never permit it |
| PolicyCache.ConnectorsNeverWiden | packages/mcp-server/src/server.ts:596-603 | the same for a connector |
| PolicyCache.AbsentStaysRefused | packages/mcp-server/src/server.ts:83-89 | a missing or empty connector that was refused once is refused ever after, whatever is applied |
| PolicyCache.UnconstrainedUntilFirstList | packages/mcp-server/src/server.ts:83-89 | each of the three lists is absent exactly while no applied response has carried it |
| TokenManager.AccessTokenManager.BeginGetValid | packages/mcp-server/src/token.ts:72-92 | a usable token, an error, or the run to wait for, and the slot afterwards |
| TokenManager.AccessTokenManager.Refresh | packages/mcp-server/src/token.ts:94-101 | joins the run in the slot or puts a new one there |
| TokenManager.AccessTokenManager.ApplyRefreshResponse | packages/mcp-server/src/token.ts:109-122 | a response without a refresh token keeps the old one; without an expiry it lasts 55 minutes |
| TokenManager.RetryCount | packages/mcp-server/src/token.ts:149-180 | how many of at most three requests the retry loop sends: all but the last are answered with a retryable failure |
| TokenManager.RetryOutcome | packages/mcp-server/src/token.ts:124-180 | the loop ends with the first reply that is not retryable: success, revoked or expired as the 401 says, and a network error if none of three is |
| TokenManager.AccessTokenManager.RefreshWithRetry | packages/mcp-server/src/token.ts:139-194 | the loop submits the stored token once per attempt and no other, and ends with the outcome and the fields of its last attempt |
| TokenManager.StepAttempts | packages/mcp-server/src/token.ts:149-180 | a run has submitted once per attempt, three times at most |
| TokenManager.StepInStep | packages/mcp-server/src/token.ts:58-64 | every step, late requests included, keeps the client's token equal to the server's, or the server's new one on its way, until a response is lost |
| TokenManager.SingleFlightTheorem | packages/mcp-server/src/token.ts:94-101 | in every run at most one refresh is live, it is the one in the slot, the slot empties when it settles, and all callers that shared it got one outcome |
| TokenManager.AccessTheorem | packages/mcp-server/src/token.ts:109-122 | in every run the access token and its expiry are those of the last refreshed reply that reached the client, 55 minutes from then if it names none |
| TokenManager.GetValidTheorem | packages/mcp-server/src/token.ts:72-92 | the token is used, and nothing else happens, if and only if there is one not known to expire within 60 s; otherwise the call fails without a refresh token, or waits for the run in the slot |
| TokenManager.ResumeTheorem | packages/mcp-server/src/token.ts:83-91 | a caller that waited for a successful refresh holds the access token of the last reply; it gets the error of the run it shared otherwise |
| TokenManager.OneAnswerTo401 | packages/mcp-server/src/server.ts:445-509 | a request is answered to a 401 by a refresh once at most |
| TokenManager.ReplayIffLoss | packages/mcp-server/src/token.ts:58-64 | a refresh token the server has rotated is submitted if and only if a rotated response was lost before, with any callers, interleaving, 401 retries (packages/mcp-server/src/server.ts 445-509) and requests processed late; the session is killed only after a loss or by a late request |
| TokenManager.LostResponseReplays | packages/mcp-server/src/token.ts:149-179 | the loss does happen: a concrete run in which the retry loop replays the rotated token and the server kills the session |
| TokenManager.LateRequestKills | packages/mcp-server/src/token.ts:149-179 | a concrete run in which a timed-out request reaches the server after its retry has succeeded, and the session is killed though nothing was lost and the client holds the current token |
| Outbox.NewId | packages/cli/src/buffer.ts:22-29 | a new row id is above every live id, though ids of deleted rows come back |
| Outbox.Inserted | packages/cli/src/buffer.ts:115-117 | an insert keeps the table in id order |
| Outbox.DeleteOldest | packages/cli/src/buffer.ts:126-133 | deleting the oldest row by its id removes that row and no other |
| Outbox.TelemetryOutbox.PushToBuffer | packages/cli/src/buffer.ts:103-124 | the row is appended under a new id, typed "evidence" unless a type is given; it returns without storing exactly when the payload cannot be serialised or the insert fails |
| Outbox.TelemetryOutbox.ReadOldestOutboxRow | packages/cli/src/buffer.ts:146-155 | none exactly for an empty table, otherwise a row with the least id |
| Outbox.TelemetryOutbox.DeleteOutboxRow | packages/cli/src/buffer.ts:126-133 | deletes by id and keeps the table in id order |
| Outbox.Retried | packages/cli/src/buffer.ts:135-144 | the update counts the attempt of the row with that id and keeps all ids and payloads, in order |
| Outbox.TelemetryOutbox.FlushBuffer | packages/cli/src/buffer.ts:157-215 | the undisturbed loop equals the recursive drain, and ends as DrainedIs says |
| Outbox.DrainedIs | packages/cli/src/buffer.ts:161-214 | exactly the rows before the end are gone, each unparseable or answered below 500; the row at the end parses, got no reply or one from 500 on, and has one attempt more; acknowledged are the payloads answered below 400, in order |
| Outbox.DrainedEnd | packages/cli/src/buffer.ts:161-214 | a drain takes rows from the front only; the rows left are the end of the table, ids and payloads as they were |
| Outbox.DrainedAll | packages/cli/src/buffer.ts:161-214 | it empties the table when every reply comes and is below 500 |
| Outbox.StepConserved | packages/cli/src/buffer.ts:157-215 | no statement, crash or reply loses a push |
| Outbox.ConservationTheorem | packages/cli/src/buffer.ts:103-215 | in every run with any pushers, one flusher and crashes anywhere, each committed push is live, acknowledged, refused with a 4xx, or unparseable |
| Outbox.FifoTheorem | packages/cli/src/buffer.ts:146-215 | with resends collapsed the acknowledged payloads are in push order, and none is newer than a waiting row, although ids are reused |
| Flushers.LostIffTaken | packages/cli/src/buffer.ts:126-215 | with any number of flushers, over all runs, a push is lost if and only if a flusher has deleted it by the id of another push it had in hand, and no answer to the lost one itself counts |
| Flushers.TwoFlushersLoseARow | packages/cli/src/buffer.ts:126-133 | a concrete run of two flushers in which a delete by a reused id removes a row nobody sent |
| LegacyMigration.CommitInOrder | packages/cli/src/buffer.ts:43-80 | when a row is about to be inserted all smaller readable files have theirs and no larger one has, but for files that failed to be read |
| LegacyMigration.StepSound | packages/cli/src/buffer.ts:51-100 | every step of every process, a failed read included, keeps the order, the uniqueness and the files' safety |
| LegacyMigration.ExactlyOnceTheorem | packages/cli/src/buffer.ts:37-101 | under any interleaving, crashes and read errors there is at most one row a file, in sorted order but for files that failed to be read; a readable file is gone without a row if and only if a process that failed to read it unlinked it; one complete pass leaves none out that never failed |
| LegacyMigration.RecordsAreSteps | packages/cli/src/buffer.ts:54-65 | a file counts as failed or as dropped exactly when the run has a step that fails to read it, or that unlinks it unread |
| LegacyMigration.ExactlyOnceWithoutFailures | packages/cli/src/buffer.ts:37-101 | in runs without such a step, rows are in sorted file order and a readable file disappears only after its row is in |
| LegacyMigration.FailedReadLosesFile | packages/cli/src/buffer.ts:54-65 | a concrete run in which one read error loses a readable file |
| LegacyMigration.LegacyRowsConserved | packages/cli/src/buffer.ts:66-99 | the row of a removed file that was not dropped unread is conserved as any other push |
| LegacyMigration.LegacyBuffer.MigrateLegacyBuffer | packages/cli/src/buffer.ts:51-100 | the loop over the files equals the recursive walk, and leaves what MigratedLeaves says |
| LegacyMigration.MigratedRows | packages/cli/src/buffer.ts:51-100 | an undisturbed walk adds exactly the rows still due in the files it gets past, in their order, and remembers exactly those files |
| LegacyMigration.MigratedLeaves | packages/cli/src/buffer.ts:51-100 | the walk stops only at a readable file whose transaction fails, which stays; off the disk are exactly the files passed that could be unlinked, so every readable file is still there or remembered |
| JsonStrings.UnquoteQuote | packages/mcp-server/src/governance.ts:34-36 | a quoted string is read back whole, whatever follows it |
| JsonStrings.EscapeForm | packages/mcp-server/src/governance.ts:34-36 | which units are copied, which have a two-character escape, and which one of six with lower-case digits (section 25.5.2.3 of ECMA-262) |
| JsonStrings.CopiedIff | packages/mcp-server/src/governance.ts:34-36 | a text is quoted as it is if and only if it has no control character, quote, backslash or lone surrogate |
| JsonNumbers.NumberBack | packages/mcp-server/src/governance.ts:38-43 | a finite number's text determines its sign, digits and exponent |
| JsonNumbers.PlainForm | packages/mcp-server/src/governance.ts:38-43 | from 10^-6 up to 10^21 a number has no exponent, a point exactly where digits follow it, and no character more |
| JsonNumbers.ExponentForm | packages/mcp-server/src/governance.ts:38-43 | outside that range it has one digit before the point and a signed exponent without leading zeros |
| CanonicalJson.StringifyPrints | packages/mcp-server/src/governance.ts:31-51 | the code throws exactly when a non-finite number is anywhere inside, and otherwise prints the value with its keys sorted at every level |
| CanonicalJson.ParsePrint | packages/mcp-server/src/governance.ts:45-50 | the text of any canonical value is read back, leaving what follows: no text is a prefix of another reading |
| CanonicalJson.BeforeIff | packages/mcp-server/src/governance.ts:49 | the order of keys: a proper beginning first, otherwise the smaller code unit at the first difference (section 3.2.3 of RFC 8785) |
| CanonicalJson.SortedOrdered | packages/mcp-server/src/governance.ts:49 | sorted keys strictly increase in that order |
| CanonicalJson.CanonIffSame | packages/mcp-server/src/governance.ts:45-50 | canonical values are equal exactly when the values are, objects taken as maps |
| CanonicalJson.CanonIdempotent | packages/mcp-server/src/governance.ts:49-50 | a canonical value is its own canonical form |
| CanonicalJson.CanonicalTheorem | packages/mcp-server/src/governance.ts:31-51 | two finite values have the same text if and only if they are equal as JSON values, with minus zero as zero |
| CanonicalJson.CanonOrdered | packages/mcp-server/src/governance.ts:45-50 | in a canonical value the keys of every nested object strictly increase |
| CanonicalJson.ReadBackTheorem | packages/mcp-server/src/governance.ts:31-51 | a JSON reader turns the text into an equal value with ordered keys in every nested object |
| CanonicalJson.SealTheorem | packages/mcp-server/src/governance.ts:53-67 | the sealed texts of two inputs agree if and only if all ten fields do, so equal seals of different inputs are an HMAC collision |
| CanonicalJson.SealReadBack | packages/mcp-server/src/governance.ts:53-67 | a JSON reader finds in the sealed text exactly ten members, each field of the input under its own name, the verdict in words and null for a missing hash |
| Utf8.DecodeEncoded | packages/cli/src/shadow.ts:87 | decoding what was encoded gives the text back and goes on with the bytes that follow |
| Utf8.Cut | packages/cli/src/shadow.ts:86-87 | a prefix of an encoded text is whole characters and at most one cut one, which decodes to one replacement character |
| LogTail.SplitJoins | packages/cli/src/shadow.ts:94 | splitting at newlines is undone by joining, and no line holds a newline |
| LogTail.LinesAppend | packages/cli/src/shadow.ts:92-95 | the lines of complete text followed by more are the lines of both |
| LogTail.PollStep | packages/cli/src/shadow.ts:79-102 | one poll of a valid log consumes whole lines from the offset on, and the re-encoded length is the bytes they take, even when the read ends inside a character |
| LogTail.TailTheorem | packages/cli/src/shadow.ts:75-109 | over all polls of a growing log, with short reads and failures, the lines returned are those below the offset, once each and in order; the offset is 0 or just past a newline; a full read leaves no line behind |
| LogTail.RestartsWhenTruncated | packages/cli/src/shadow.ts:81 | a file shorter than the offset is read from its start |
| LogTail.RotationMissed | packages/cli/src/shadow.ts:81-82 | a rotated log no shorter than the old offset loses lines: a concrete one |
| LogRotation.RotationAgreesIff | packages/cli/src/shadow.ts:79-102 | for any log and any old offset, even inside a character, a full poll returns the lines of a fresh one if and only if the log is shorter than the offset or what the offset passes over shows no line |
| LogBatch.LinesTrim | packages/cli/src/shadow.ts:60-62 | the lines of the trimmed text are the lines of the text without blank lines and space at either end |
| LogBatch.TailEqualsBatch | packages/cli/src/shadow.ts:56-109 | for every log, the polls together return what one whole-file reading of the bytes below the offset returns, if and only if all lines between blank ends parse, or none does and trimming the ends does not change that |
| LogBatch.SolidTailEqualsBatch | packages/cli/src/shadow.ts:56-109 | for lines that neither start nor end in white space, as JSON.stringify writes them: if and only if all parse or none does |
| LogTail.ReadShadowLogFrom | packages/cli/src/shadow.ts:75-109 | the loop returns the entries of the lines that parse, in order, and the next offset |
| Bits.Shift | apps/web/lib/totp.ts:19 | a right shift leaves the high bits and the mask the low ones |
| Bits.SpreadPadded | apps/web/lib/totp.ts:14-26 | regrouped bits spread out again to the same bits and fewer zeros than a group |
| Base32.ShlOrBits | apps/web/lib/totp.ts:15 | the accumulator's 32-bit overflow never reaches the bits still to be written |
| Base32.EncodeBase32 | apps/web/lib/totp.ts:9-29 | the loop with the wrapping accumulator writes the 5-bit groups of the whole bit string (section 6 of RFC 4648, no padding) |
| Base32.DecodeBase32 | apps/web/lib/totp.ts:31-50 | the loop returns the whole bytes of the digits' bit string |
| Base32.Shape | apps/web/lib/totp.ts:9-29 | the text has one character for every five bits begun, and its bits past the bytes are zero |
| Base32.RoundTrip | apps/web/lib/totp.ts:9-50 | decoding inverts encoding for every byte sequence |
| Base32.RetypedRoundTrip | apps/web/lib/totp.ts:5-7 | so it does for the text typed in either case with foreign ASCII characters anywhere |
| Totp.CounterShift | apps/web/lib/totp.ts:88-93 | moving the clock by whole steps moves the counter by as many |
| Totp.CounterSpan | apps/web/lib/totp.ts:58 | a counter lasts from its own multiple of the step to the next |
| Totp.OtpTruncates | apps/web/lib/totp.ts:63-69 | the code is taken from the 31 low bits of the four bytes at the offset that the low four bits of the digest give (section 5.3 of RFC 4226) |
| Totp.RfcExample | apps/web/lib/totp.ts:63-69 | the example of section 5.4 of RFC 4226 |
| Totp.OtpMessage | apps/web/lib/totp.ts:58-62 | the message is the counter as eight bytes, the most significant first |
| Totp.TrimEnds | apps/web/lib/totp.ts:79-80 | trimming takes white space off both ends of the typed code and leaves none there |
| Totp.SixDigitText | apps/web/lib/totp.ts:69-70 | the padded text of a code is the one string of six digits with its number |
| Totp.GenerateTotpCode | apps/web/lib/totp.ts:56-71 | the code's number is the truncated HMAC of the counter (section 5.3 of RFC 4226); it throws exactly when the counter does not fit |
| Totp.VerifyTotpCode | apps/web/lib/totp.ts:73-102 | a code is accepted if and only if its number is that of a counter within the window; a window reaching below the epoch throws |
| Base64Url.Base64Form | apps/web/lib/crypto-utils.ts:1-8 | the quantum-wise definition of section 4 of RFC 4648 is one run of 6-bit groups and its padding |
| Base64Url.Base64RoundTrip | apps/web/lib/crypto-utils.ts:1-23 | decoding inverts it |
| Base64Url.UrlForm | apps/web/lib/crypto-utils.ts:25-27 | the URL form is the 6-bit groups in the URL alphabet, with no '=' and no '.' |
| Base64Url.RepadRestores | apps/web/lib/crypto-utils.ts:29-33 | the re-padding formula rebuilds exactly the text that was stripped |
| Base64Url.UrlRoundTrip | apps/web/lib/crypto-utils.ts:25-33 | fromBase64Url inverts toBase64Url on every byte sequence |
| SessionGuard.TimingSafeEqual | apps/web/lib/session-guard.ts:15-20 | the accumulated XOR is zero exactly for equal byte sequences |
| SessionGuard.SplitOneDot | apps/web/lib/session-guard.ts:69-72 | a token of two dot-free parts splits into them |
| SessionGuard.PlatformExists | apps/web/lib/session-guard.ts:38-61 | what the theorems ask of the platform can be met: there is one, with all whole reals for numbers |
| SessionGuard.VerifyToken | apps/web/lib/session-guard.ts:63-102 | the verification in its steps, with the accumulating comparison, gives the specified verdict |
| SessionGuard.GuardRoundTrip | apps/web/lib/session-guard.ts:38-102 | verifying a fresh token whose expiry is a number of the platform returns its own claims if and only if it has not expired and an expected session id is its own |
| SessionGuard.CheckedIs | apps/web/lib/session-guard.ts:88-101 | a payload is accepted if and only if it has the six typed claims, an expiry in the future and the expected session id; null throws |
| SessionGuard.AcceptedIffSigned | apps/web/lib/session-guard.ts:63-102 | any token is accepted, with given claims, if and only if its second part decodes to the HMAC of its first and the payload has these claims, typed, unexpired and matching; it throws exactly for a signed null |
| GatewayPoll.ResolveConfig | packages/cli/src/gateway.ts:44-78 | half an hour and 10 s unless the environment says otherwise, at least 5 s and 2 s; the environment's outage policy before the file's before the mode's |
| GatewayPoll.PollEscalationResolution | packages/cli/src/gateway.ts:127-173 | the timed loop equals the recursive wait |
| GatewayPoll.StartSpacing | packages/cli/src/gateway.ts:167-171 | polls start a whole interval apart until the time is up |
| GatewayPoll.AnsweredIff | packages/cli/src/gateway.ts:131-162 | a poll counts if and only if it starts in time and brings RESOLVED or EXPIRED within one interval and the time limit |
| GatewayPoll.Cadence | packages/cli/src/gateway.ts:140-171 | the next poll starts one interval after the reply, or after one interval without a reply |
| GatewayPoll.StartBound | packages/cli/src/gateway.ts:140-171 | so a stalled connection never keeps two polls more than two intervals apart |
| GatewayPoll.WaitTheorem | packages/cli/src/gateway.ts:127-173 | the wait ends within timeoutMs after at most one poll for every interval begun; it returns the first final status, and EXPIRED by time-out if and only if no poll brought one |
| Injection.InjectedIff | packages/cli/src/pretooluse.ts:359-394 | a path is written if and only if it has no unsafe part and, for a named connector, is one of the parameters listed for it |
| Injection.Descend | packages/cli/src/pretooluse.ts:396-403 | the walk goes through the objects that are there, makes only those that are missing, and changes each at one property |
| Injection.InjectParameter | packages/cli/src/pretooluse.ts:373-406 | the value stands at the path, every other property of every object is as before, and a refused path changes nothing |
| HookFlow.ReviewIsWait | packages/cli/src/pretooluse.ts:505-537 | what the reviewer decided is what the first poll with a final status brought |
| HookFlow.AllowedIff | packages/cli/src/pretooluse.ts:658-764 | a governed call with a bundle is let through if and only if shadow mode is on, or a reviewer or the gateway proceeds and any grant is delivered, or the gateway leaves it to the local decision and that is not a DENY in enforce mode |
| HookFlow.EarlyExits | packages/cli/src/pretooluse.ts:658-700 | a call that does not get as far as the decision is let through, at once if ungoverned, unless refreshing the token failed |
| HookFlow.DeliveredIff | packages/cli/src/pretooluse.ts:420-448 | a grant reaches the tool exactly on Claude Code, Codex and Gemini CLI, at a path that may be written |
| HookFlow.RewrittenIff | packages/cli/src/pretooluse.ts:420-448 | a credential leaves with the input if and only if the hook decides outside shadow mode and is handed the grant, by the gateway (lines 570-573) or the reviewer (511-516), for a harness that can rewrite and at a path allowed for the connector |
| HookFlow.GuardThrowsIff | packages/cli/src/pretooluse.ts:373-395 | the check of a path throws if and only if input and path are sound and the lower-cased connector is a name that the table of connectors inherits |
| HookFlow.FailsIff | packages/cli/src/pretooluse.ts:388-516 | a deciding call errs if and only if it is outside shadow mode, its harness can rewrite, and it is handed a grant whose check throws |
| HookFlow.FailingCall | packages/cli/src/pretooluse.ts:388-394 | a concrete call that errs, for a connector named "constructor" |
| HookFlow.OutageBlocksIff | packages/cli/src/pretooluse.ts:452-488 | in an outage a call is blocked if and only if its connector needs granted credentials, the outage policy fails closed, or the local decision blocks |
| HookFlow.GatewayStageTime | packages/cli/src/pretooluse.ts:543-576 | the gateway stage takes at most 7 s and the wait, and 4 s when it hands on |
| HookFlow.EffectiveIs | packages/cli/src/pretooluse.ts:188-200 | the gateway's configuration is used as it is, but on Kimi Code with a wait of nine minutes at most |
| HookFlow.BlockWaitsForEvidence | packages/cli/src/pretooluse.ts:420-750 | a block comes no sooner than its evidence is delivered, or 2 s after it was sent, but for an outage or a refused path |
| HookFlow.GrantWaitsForEvidence | packages/cli/src/pretooluse.ts:444-447 | a credential leaves no sooner than the evidence is delivered, or half a second after it was sent |
| HookFlow.OutageBlockTime | packages/cli/src/pretooluse.ts:452-488 | a block in an outage comes exactly after the reply's 3 s at most and the evidence's 1 s at most |
| HookFlow.DeadlineTheorem | packages/cli/src/pretooluse.ts:188-200 | every decision comes within 17 s and the gateway's limit; on Kimi Code always before the 600 s kill |
| HookFlow.UnclampedOverruns | packages/cli/src/pretooluse.ts:188-200 | without the clamp a queued call that nobody reviews is still waiting at the kill |
| Redaction.Sanitizer.SanitizeForLog | packages/platform/src/logging.ts:60-84 | the recursive method with its shared set and its loops equals the functional walk, output and set |
| Redaction.SanitizeShape | packages/platform/src/logging.ts:60-84 | on every graph the output is at most 8 deep, redacted under every sensitive key, and each object is entered at most once |
| Redaction.SanitizeRenders | packages/platform/src/logging.ts:66-83 | nothing else is lost: containers keep their items and keys in order and plain values stand, but for objects too deep or among those entered in this walk |
| Redaction.NonInterference | packages/platform/src/logging.ts:60-84 | two graphs that agree but below sensitive keys, under any one-to-one renaming of references, shared or cyclic, have the same output |
| Redaction.RedactAttributes | packages/platform/src/logging.ts:86-98 | the trace attributes equal the log fields, with a fresh set for each attribute |
| Redaction.LoggedAlike | packages/platform/src/logging.ts:86-108 | the logged attributes do not depend on anything under a sensitive key |
| TomlSplice.ConfigFile.WriteTomlHook | packages/cli/src/install-hook.ts:232-260 | the outcome and the file afterwards, which changes only when something is saved |
| TomlSplice.ConfigFile.RemoveTomlHook | packages/cli/src/install-hook.ts:262-277 | the same for removal; a missing file stays missing |
| TomlSplice.LocatedIff | packages/cli/src/install-hook.ts:279-285 | a block after whole lines is located exactly if and only if the quoted command does not hold the end marker |
| TomlSplice.FoundIff | packages/cli/src/install-hook.ts:279-285 | a block is found exactly where a start marker has an end marker after it |
| TomlSplice.OutcomeIff | packages/cli/src/install-hook.ts:232-277 | installing is refused exactly where no block is found and the command of a hook occurs, and does nothing exactly where the block found is the one to install |
| TomlSplice.ReadBack | packages/cli/src/install-hook.ts:215-225 | the command can be read back from its block |
| TomlSplice.ManagedTheorem | packages/cli/src/install-hook.ts:232-277 | with a block anywhere in the file: the same command is a no-op, another changes the block alone, removal takes out the block and its newline |
| TomlSplice.InstallTheorem | packages/cli/src/install-hook.ts:232-285 | on a text with no block, dangling marker or hook of its own, installing keeps it as a prefix and adds exactly the block, reinstalling is a no-op, and removing restores it up to newlines at its end, and those too if and only if it was empty or had two |
| TomlSplice.DanglingMarker | packages/cli/src/install-hook.ts:232-285 | with a start marker that no end marker follows, uninstalling after installing takes away the text from that marker on |
| TomlSplice.RestoredIff | packages/cli/src/install-hook.ts:232-285 | uninstalling gives back the text, up to newlines at its end, if and only if it had no start marker |
| TomlSplice.HookCommandQuotable | packages/cli/src/install-hook.ts:332-334 | both commands that are installed satisfy the condition on the end marker |
| IdempotencyCache.Cache.Get | packages/api-contracts/src/idempotency.ts:29-37 | the value unless it has expired, and an expired entry is deleted |
| IdempotencyCache.Cache.Set | packages/api-contracts/src/idempotency.ts:39-46 | evicts the oldest key of a full Map, then stores; a key already there keeps its place |
| IdempotencyCache.SizeBound | packages/api-contracts/src/idempotency.ts:39-46 | with non-empty keys no run stores more than 2048 entries |
| IdempotencyCache.EmptyKeyBlocksEviction | packages/api-contracts/src/idempotency.ts:42-43 | an empty oldest key is never evicted, and then every new key grows the Map |
| IdempotencyCache.GrowsPastBoundIff | packages/api-contracts/src/idempotency.ts:39-46 | a set takes a Map within its bound past it if and only if the Map is full, its oldest key is empty and the key is new |
| IdempotencyCache.ReadsLastSet | packages/api-contracts/src/idempotency.ts:29-46 | a value that is read is the last one set for its key and no older than the time to live |
| IdempotencyCache.ReadDeletesIff | packages/api-contracts/src/idempotency.ts:29-37 | a read takes away its own key exactly when the time to live since its last set is over, and nothing else |
| IdempotencyCache.Survives | packages/api-contracts/src/idempotency.ts:39-46 | a stored key outlives as many sets as there is room left and older keys to evict first |
| IdempotencyCache.StaysIff | packages/api-contracts/src/idempotency.ts:39-46 | that slack is exact: through sets of new keys a key stays if and only if they number no more than its slack |
| IdempotencyCache.KeptThroughSets | packages/api-contracts/src/idempotency.ts:39-46 | a key that was absent when set is readable until its time to live ends, through any 2047 further sets |
| IdempotencyCache.RefreshIsNotKept | packages/api-contracts/src/idempotency.ts:45 | a run in which a key set again is gone two sets later |

## Left out

- The policy kernel, the layers' composition, Rego and Cedar translation and the hash chain are not part of this model: a local evaluation is an arbitrary status.
- Floating-point rounding: token counts, expiry times and quotients are reals, clock readings whole milliseconds.
- NaN and invalid dates, and clocks that run backwards.
- HMAC and SHA internals, JSON.parse of file contents, and the sensitive-key pattern: they are functions, with an inverse pair where a round trip needs one.
- TokenManager.ReplayIffLoss: a request is processed at most once; duplication by the network is not modelled.
- Outbox.ConservationTheorem: acknowledged means that the reply arrived; a request the server accepted without the client seeing a reply is a network error here and is sent again.
- Outbox.DrainedIs: the text of a row's last error is abbreviated to its kind.
- Outbox.NewId: SQLite's behaviour at the largest 64-bit row id.
- The number-to-text algorithm's choice of shortest digits: a number is its sign, shortest digits and exponent, and the layout of those is modelled; `__proto__` as an object key is not.
- LogBatch.TailEqualsBatch: of JSON.parse it is assumed that a blank line does not parse and that space around a line that does makes no difference; of the space that trim removes, only some is space to JSON.parse, and a line that parses has no other at its ends.
- LogTail.TailTheorem: is for a valid UTF-8 log; a stray byte re-encodes as three and moves the offset too far.
- Totp.VerifyTotpCode: the platform's constant-time comparison is equality.
- Base64Url.Base64RoundTrip: characters outside the alphabets are skipped when decoding; other details of the platform's lenient decoder, and the fallback for hosts without Buffer, are not modelled.
- Injection.InjectParameter: objects of the input refer to one another as parsed JSON does, never back up; arrays are objects with index properties, without the special length property; a grant for a payload that carries no input object is not followed to the printed payload.
- HookFlow.DeadlineTheorem: bounds the decision, not the process, which after an allow lives on until its requests end, and after a local one through flushBuffer (packages/cli/src/pretooluse.ts 763); being killed then leaves the verdict as it is. Timers fire exactly on time, and reading a reply's body after its headers takes no time.
- HookFlow.AllowedIff: a gateway reply is taken to have a decision in it; one without makes the hook err.
- HookFlow: parameter filtering, classification of tools, option parsing and the text of messages; the Antigravity JSON answer and the exit codes are the same decision.
- Redaction.RedactAttributes: the normalisation of a sanitised value is a function of that value alone; its truncation and array rules are not modelled, nor a record key named `__proto__`.
- TomlSplice.InstallTheorem: leaves texts with a dangling start marker to DanglingMarker; file contents are taken as text.
- RateLimiter: deriving the throttle key from a request.
- Next.js pages, React components, cookies, email, OIDC and SAML configuration, OpenAPI data, CLI wiring, telemetry exporters and HTTP plumbing.
- The fixed-window limiter, path allowlists, role tables and plan ranks: simpler relatives that would only add easy members.
